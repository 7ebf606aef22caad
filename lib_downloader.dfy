/** The `Downloader` of the newer generation (catkin_tools_fetch/lib/downloader.py):
    it checks every dependency of a merged dict against git, then clones the
    reachable ones that the workspace does not have yet. `git ls-remote` is the
    oracle `probe` (through `repository_exists`), `git clone` the oracle `git`
    that maps a command line to its outcome, and `path.exists` the oracle
    `pathExists`. The dependency dict is modelled on the values of its
    `Dependency` objects. Two lines of the checked-and-cloned path do not do what
    their docstrings say; each is modelled as written and next to a corrected
    version (see the `AsWritten` members). */
module LibDownloader {
  import opened Wrappers
  import opened Strs
  import opened Dicts
  import opened LibTools
  import opened LibDependency
  import opened LibToolsDeps

  const NO_ERROR := 0

  /** `ws_path`, `available_pkgs` and `ignore_pkgs`; none of them changes after
      construction. */
  datatype Downloader = Downloader(wsPath: string, availablePkgs: set<string>, ignorePkgs: set<string>)

  function MissingFolderError(wsPath: string): Exc
  {
    ValueError("\n            Folder '" + wsPath + "' is missing.\n            Are you running 'fetch' from a catkin workspace?\n            ")
  }

  /** `Downloader(ws_path, available_pkgs, ignore_pkgs)` (lines 32-48). */
  function NewDownloader(wsPath: string, availablePkgs: set<string>, ignorePkgs: set<string>,
                         pathExists: string -> bool): (r: Result<Downloader>)
    ensures r.Raised? <==> !pathExists(wsPath)
    ensures r.Raised? ==> r.exc.ValueError?
    ensures r.Ok? ==> r.value.wsPath == wsPath && r.value.availablePkgs == availablePkgs
                      && r.value.ignorePkgs == ignorePkgs
  {
    if !pathExists(wsPath) then Raised(MissingFolderError(wsPath))
    else Ok(Downloader(wsPath, availablePkgs, ignorePkgs))
  }

  // ---------------------------------------------------------------------
  // __check_dependencies
  // ---------------------------------------------------------------------

  /** Python's truth value of a tuple: a non-empty tuple is always true. */
  predicate PairIsTrue<A, B>(t: (A, B))
  {
    true
  }

  /** The names of `ks`, in order, that are not ignored and that
      `repository_exists` finds. */
  function FoundAmong(ks: seq<string>, vals: map<string, DepValue>, ignore: set<string>,
                      probe: string -> bool): seq<string>
  {
    if ks == [] then []
    else
      var last := ks[|ks| - 1];
      FoundAmong(ks[..|ks| - 1], vals, ignore, probe)
      + (if last in vals && last !in ignore && ProbeDep(vals[last], probe).1 then [last] else [])
  }

  /** A name is found exactly when it is listed, not ignored, and reachable. */
  lemma {:induction false} FoundAmongSpec(ks: seq<string>, vals: map<string, DepValue>, ignore: set<string>,
                                          probe: string -> bool)
    requires forall k :: k in ks ==> k in vals
    ensures forall x :: x in FoundAmong(ks, vals, ignore, probe) <==>
              x in ks && x !in ignore && ProbeDep(vals[x], probe).1
  {
    if ks != [] {
      var init := ks[..|ks| - 1];
      FoundAmongSpec(init, vals, ignore, probe);
      assert forall x :: x in ks <==> x in init || x == ks[|ks| - 1];
    }
  }

  /** No name occurs twice in `ks`. */
  ghost predicate NoRepeats(ks: seq<string>)
  {
    forall i, j :: 0 <= i < j < |ks| ==> ks[i] != ks[j]
  }

  /** The dict the corrected loop has built once it has gone through `ks`:
      the names found so far, each with the dependency `repository_exists`
      returned for it. */
  function Checked(ks: seq<string>, vals: map<string, DepValue>, ignore: set<string>,
                   probe: string -> bool): (r: Dict<DepValue>)
    ensures r.Valid()
  {
    if ks == [] then Empty()
    else
      var c := Checked(ks[..|ks| - 1], vals, ignore, probe);
      var last := ks[|ks| - 1];
      if last in vals && last !in ignore && ProbeDep(vals[last], probe).1
      then c.Put(last, ProbeDep(vals[last], probe).0)
      else c
  }

  /** The dict the loop as written has built once it has gone through `ks`:
      every name that is not ignored, found or not. */
  function CheckedAsWritten(ks: seq<string>, vals: map<string, DepValue>, ignore: set<string>,
                            probe: string -> bool): (r: Dict<DepValue>)
    ensures r.Valid()
  {
    if ks == [] then Empty()
    else
      var c := CheckedAsWritten(ks[..|ks| - 1], vals, ignore, probe);
      var last := ks[|ks| - 1];
      if last in vals && last !in ignore && PairIsTrue(ProbeDep(vals[last], probe))
      then c.Put(last, ProbeDep(vals[last], probe).0)
      else c
  }

  /** One more name for the corrected loop. */
  lemma CheckedSnoc(ks: seq<string>, k: string, vals: map<string, DepValue>, ignore: set<string>,
                    probe: string -> bool)
    ensures Checked(ks + [k], vals, ignore, probe)
            == var c := Checked(ks, vals, ignore, probe);
               if k in vals && k !in ignore && ProbeDep(vals[k], probe).1
               then c.Put(k, ProbeDep(vals[k], probe).0) else c
  {
    assert (ks + [k])[..|ks|] == ks;
  }

  /** One more name for the loop as written. */
  lemma CheckedAsWrittenSnoc(ks: seq<string>, k: string, vals: map<string, DepValue>, ignore: set<string>,
                             probe: string -> bool)
    ensures CheckedAsWritten(ks + [k], vals, ignore, probe)
            == var c := CheckedAsWritten(ks, vals, ignore, probe);
               if k in vals && k !in ignore && PairIsTrue(ProbeDep(vals[k], probe))
               then c.Put(k, ProbeDep(vals[k], probe).0) else c
  {
    assert (ks + [k])[..|ks|] == ks;
  }

  /** The corrected dict holds, in order, exactly the names found, each with
      the url it was found under. */
  lemma {:induction false} CheckedContents(ks: seq<string>, vals: map<string, DepValue>, ignore: set<string>,
                                           probe: string -> bool)
    requires NoRepeats(ks) && forall k :: k in ks ==> k in vals
    ensures var r := Checked(ks, vals, ignore, probe);
            && r.keys == FoundAmong(ks, vals, ignore, probe)
            && (forall k :: k in r.vals <==> k in ks && k !in ignore && ProbeDep(vals[k], probe).1)
            && (forall k :: k in r.vals ==> r.vals[k] == ProbeDep(vals[k], probe).0)
  {
    if ks != [] {
      var init := ks[..|ks| - 1];
      var last := ks[|ks| - 1];
      assert forall x :: x in ks <==> x in init || x == last;
      assert last !in init by {
        forall j | 0 <= j < |init| ensures init[j] != last {
          assert init[j] == ks[j];
        }
      }
      CheckedContents(init, vals, ignore, probe);
    }
  }

  /** The dict as written holds, in order, every name that is not ignored,
      each with the dependency as `repository_exists` left it. */
  lemma {:induction false} CheckedAsWrittenContents(ks: seq<string>, vals: map<string, DepValue>,
                                                    ignore: set<string>, probe: string -> bool)
    requires NoRepeats(ks) && forall k :: k in ks ==> k in vals
    ensures var r := CheckedAsWritten(ks, vals, ignore, probe);
            && r.keys == Outside(ks, ignore)
            && (forall k :: k in r.vals ==> k in vals && r.vals[k] == ProbeDep(vals[k], probe).0)
  {
    if ks != [] {
      var init := ks[..|ks| - 1];
      var last := ks[|ks| - 1];
      assert forall x :: x in ks <==> x in init || x == last;
      assert last !in init by {
        forall j | 0 <= j < |init| ensures init[j] != last {
          assert init[j] == ks[j];
        }
      }
      CheckedAsWrittenContents(init, vals, ignore, probe);
      OutsideSpec(init, ignore);
    }
  }

  /** The keys of a valid dict, and every prefix of them, have no repeats. */
  lemma PrefixNoRepeats(d: Dict<DepValue>, i: nat)
    requires d.Valid() && i <= |d.keys|
    ensures NoRepeats(d.keys[..i]) && forall k :: k in d.keys[..i] ==> k in d.vals
  {
  }

  /** `__check_dependencies` as written: line 114 tests the pair
      `(dependency, found)` that `repository_exists` returns, which is always
      true, so every name that is not ignored is kept, reachable or not. The
      probe still runs and still writes a reachable url into the dependency.
      `probed` lists the names handed to `repository_exists`. */
  method CheckDependenciesAsWritten(d: Downloader, depDict: Dict<DepValue>, probe: string -> bool)
    returns (checked: Dict<DepValue>, probed: seq<string>)
    requires depDict.Valid()
    ensures checked.Valid()
    ensures checked.keys == Outside(depDict.keys, d.ignorePkgs)
    ensures forall k :: k in checked.vals ==> k in depDict.vals && checked.vals[k] == ProbeDep(depDict.vals[k], probe).0
    ensures probed == Outside(depDict.keys, d.ignorePkgs)
  {
    checked := Empty();
    probed := [];
    PrefixNoRepeats(depDict, |depDict.keys|);
    assert depDict.keys[..|depDict.keys|] == depDict.keys;
    if depDict.keys == [] {
      CheckedAsWrittenContents(depDict.keys, depDict.vals, d.ignorePkgs, probe);
      return;
    }
    var i := 0;
    assert depDict.keys[..0] == [];
    while i < |depDict.keys|
      invariant 0 <= i <= |depDict.keys|
      invariant checked == CheckedAsWritten(depDict.keys[..i], depDict.vals, d.ignorePkgs, probe)
      invariant probed == Outside(depDict.keys[..i], d.ignorePkgs)
    {
      var name := depDict.keys[i];
      assert depDict.keys[..i + 1] == depDict.keys[..i] + [name];
      CheckedAsWrittenSnoc(depDict.keys[..i], name, depDict.vals, d.ignorePkgs, probe);
      OutsideSnoc(depDict.keys[..i], name, d.ignorePkgs);
      if name !in d.ignorePkgs {
        var result := ProbeDep(depDict.vals[name], probe);
        probed := probed + [name];
        if PairIsTrue(result) {
          checked := checked.Put(name, result.0);
        }
      }
      i := i + 1;
    }
    assert depDict.keys[..i] == depDict.keys;
    CheckedAsWrittenContents(depDict.keys, depDict.vals, d.ignorePkgs, probe);
  }

  /** `__check_dependencies` with the flag of the pair tested instead: the kept
      names are exactly the ones that are not ignored and reachable, each with
      the url it was found under. Every name that is not ignored is probed. */
  method CheckDependencies(d: Downloader, depDict: Dict<DepValue>, probe: string -> bool)
    returns (checked: Dict<DepValue>, probed: seq<string>)
    requires depDict.Valid()
    ensures checked.Valid()
    ensures checked.keys == FoundAmong(depDict.keys, depDict.vals, d.ignorePkgs, probe)
    ensures forall k :: k in checked.vals <==> k in depDict.vals && k !in d.ignorePkgs && ProbeDep(depDict.vals[k], probe).1
    ensures forall k :: k in checked.vals ==> checked.vals[k] == ProbeDep(depDict.vals[k], probe).0
    ensures probed == Outside(depDict.keys, d.ignorePkgs)
  {
    checked := Empty();
    probed := [];
    PrefixNoRepeats(depDict, |depDict.keys|);
    assert depDict.keys[..|depDict.keys|] == depDict.keys;
    if depDict.keys == [] {
      CheckedContents(depDict.keys, depDict.vals, d.ignorePkgs, probe);
      return;
    }
    var i := 0;
    assert depDict.keys[..0] == [];
    while i < |depDict.keys|
      invariant 0 <= i <= |depDict.keys|
      invariant checked == Checked(depDict.keys[..i], depDict.vals, d.ignorePkgs, probe)
      invariant probed == Outside(depDict.keys[..i], d.ignorePkgs)
    {
      var name := depDict.keys[i];
      assert depDict.keys[..i + 1] == depDict.keys[..i] + [name];
      CheckedSnoc(depDict.keys[..i], name, depDict.vals, d.ignorePkgs, probe);
      OutsideSnoc(depDict.keys[..i], name, d.ignorePkgs);
      if name !in d.ignorePkgs {
        var result := ProbeDep(depDict.vals[name], probe);
        probed := probed + [name];
        if result.1 {
          checked := checked.Put(name, result.0);
        }
      }
      i := i + 1;
    }
    assert depDict.keys[..i] == depDict.keys;
    CheckedContents(depDict.keys, depDict.vals, d.ignorePkgs, probe);
  }

  // ---------------------------------------------------------------------
  // __clone_dependencies
  // ---------------------------------------------------------------------

  /** The exception Python raises for `GitBridge.clone(url, dep_path)`: the
      call gives two of the three required arguments. */
  const CloneArityError := TypeError("clone() missing 1 required positional argument: 'clone_path'")

  /** `__clone_dependencies` as written: a name the workspace already has is
      skipped; for any other, line 85 raises before git runs. So the result is
      `NO_ERROR` exactly when every checked name is available. */
  method CloneDependenciesAsWritten(d: Downloader, checked: Dict<DepValue>) returns (r: Result<int>)
    ensures r == if Outside(checked.keys, d.availablePkgs) == [] then Ok(NO_ERROR) else Raised(CloneArityError)
  {
    if checked.keys == [] {
      return Ok(NO_ERROR);
    }
    var i := 0;
    while i < |checked.keys|
      invariant 0 <= i <= |checked.keys|
      invariant Outside(checked.keys[..i], d.availablePkgs) == []
    {
      var name := checked.keys[i];
      assert checked.keys[..i + 1][..i] == checked.keys[..i];
      if name !in d.availablePkgs {
        OutsideSpec(checked.keys, d.availablePkgs);
        assert name in Outside(checked.keys, d.availablePkgs);
        return Raised(CloneArityError);
      }
      i := i + 1;
    }
    assert checked.keys[..i] == checked.keys;
    r := Ok(NO_ERROR);
  }

  /** The branch a corrected clone asks for: the dependency's own when set,
      `clone`'s default `master` otherwise. */
  function BranchToClone(v: DepValue): string
  {
    if Truthy(v.branch) then v.branch.value else "master"
  }

  /** `CLONE_CMD_MASK.format(url=..., path=..., branch=...)`. */
  function CloneCommand(url: string, clonePath: string, branch: string): string
  {
    "git clone --recursive --branch " + branch + " " + url + " " + clonePath
  }

  /** The tag `GitBridge.clone(name, url, path, branch)` reports for dependency
      `v` cloned into the workspace. */
  function CloneTag(d: Downloader, name: string, v: DepValue, git: string -> GitRun): string
  {
    var branch := BranchToClone(v);
    Clone(name, branch, git(CloneCommand(Text(v.url), PathJoin(d.wsPath, name), branch))).1
  }

  /** Some name of `ks` that the workspace lacks fails to clone. */
  function AnyCloneFails(d: Downloader, ks: seq<string>, vals: map<string, DepValue>, git: string -> GitRun): bool
    requires forall k :: k in ks ==> k in vals
  {
    if ks == [] then false
    else
      var last := ks[|ks| - 1];
      AnyCloneFails(d, ks[..|ks| - 1], vals, git)
      || (last !in d.availablePkgs && CloneTag(d, last, vals[last], git) == ERROR_TAG)
  }

  lemma {:induction false} AnyCloneFailsSpec(d: Downloader, ks: seq<string>, vals: map<string, DepValue>,
                                             git: string -> GitRun)
    requires forall k :: k in ks ==> k in vals
    ensures AnyCloneFails(d, ks, vals, git) <==>
            exists k :: k in ks && k !in d.availablePkgs && CloneTag(d, k, vals[k], git) == ERROR_TAG
  {
    if ks != [] {
      var init := ks[..|ks| - 1];
      AnyCloneFailsSpec(d, init, vals, git);
      assert forall x :: x in ks <==> x in init || x == ks[|ks| - 1];
    }
  }

  /** `__clone_dependencies` with the call completed as
      `GitBridge.clone(name, dep.url, dep_path, branch)` and the tag of the
      returned pair compared: every checked name the workspace lacks is cloned
      once, in dict order, into `ws_path/name`, and the result is 1 exactly when
      one of those clones fails for a reason other than "already exists". */
  method CloneDependencies(d: Downloader, checked: Dict<DepValue>, git: string -> GitRun)
    returns (errorCode: int, cloned: seq<string>)
    requires checked.Valid()
    ensures cloned == Outside(checked.keys, d.availablePkgs)
    ensures errorCode == 1 <==>
            exists k :: k in checked.vals && k !in d.availablePkgs && CloneTag(d, k, checked.vals[k], git) == ERROR_TAG
    ensures errorCode == NO_ERROR || errorCode == 1
  {
    cloned := [];
    if checked.keys == [] {
      return NO_ERROR, cloned;
    }
    errorCode := NO_ERROR;
    var i := 0;
    while i < |checked.keys|
      invariant 0 <= i <= |checked.keys|
      invariant cloned == Outside(checked.keys[..i], d.availablePkgs)
      invariant errorCode == if AnyCloneFails(d, checked.keys[..i], checked.vals, git) then 1 else NO_ERROR
    {
      var name := checked.keys[i];
      assert checked.keys[..i + 1][..i] == checked.keys[..i];
      if name !in d.availablePkgs {
        var dep := checked.vals[name];
        var branch := BranchToClone(dep);
        var cloneResult := Clone(name, branch, git(CloneCommand(Text(dep.url), PathJoin(d.wsPath, name), branch)));
        cloned := cloned + [name];
        if cloneResult.1 == ERROR_TAG {
          errorCode := 1;
        }
      }
      i := i + 1;
    }
    assert checked.keys[..i] == checked.keys;
    AnyCloneFailsSpec(d, checked.keys, checked.vals, git);
  }

  // ---------------------------------------------------------------------
  // download_dependencies
  // ---------------------------------------------------------------------

  /** The argument of `download_dependencies`: a dict, or anything else. */
  datatype DepArg = DictArg(deps: Dict<DepValue>) | NotADict

  const NotADictError := ValueError("expected a dictionary with dependencies.")

  /** What `download_dependencies` returns as written, for a dict argument. */
  function DownloadAsWritten(d: Downloader, depDict: Dict<DepValue>): Result<int>
  {
    if Outside(Outside(depDict.keys, d.ignorePkgs), d.availablePkgs) == [] then Ok(NO_ERROR)
    else Raised(CloneArityError)
  }

  /** `download_dependencies` (lines 50-62) as written: a dependency that is
      neither ignored nor available makes it raise. */
  method DownloadDependenciesAsWritten(d: Downloader, arg: DepArg, probe: string -> bool)
    returns (r: Result<int>)
    requires arg.DictArg? ==> arg.deps.Valid()
    ensures arg.NotADict? ==> r == Raised(NotADictError)
    ensures arg.DictArg? ==> r == DownloadAsWritten(d, arg.deps)
  {
    if arg.NotADict? {
      return Raised(NotADictError);
    }
    var checked, _ := CheckDependenciesAsWritten(d, arg.deps, probe);
    r := CloneDependenciesAsWritten(d, checked);
  }

  /** What the corrected `download_dependencies` returns for a dict argument. */
  function Download(d: Downloader, depDict: Dict<DepValue>, probe: string -> bool, git: string -> GitRun): int
  {
    if exists k :: k in depDict.vals && k !in d.ignorePkgs && ProbeDep(depDict.vals[k], probe).1
                   && k !in d.availablePkgs && CloneTag(d, k, ProbeDep(depDict.vals[k], probe).0, git) == ERROR_TAG
    then 1 else NO_ERROR
  }

  /** `download_dependencies` with both corrections: the error code is 1
      exactly when some dependency that is not ignored, is reachable and is not
      in the workspace fails to clone. */
  method DownloadDependencies(d: Downloader, arg: DepArg, probe: string -> bool, git: string -> GitRun)
    returns (r: Result<int>)
    requires arg.DictArg? ==> arg.deps.Valid()
    ensures arg.NotADict? ==> r == Raised(NotADictError)
    ensures arg.DictArg? ==> r == Ok(Download(d, arg.deps, probe, git))
  {
    if arg.NotADict? {
      return Raised(NotADictError);
    }
    var checked, _ := CheckDependencies(d, arg.deps, probe);
    var code, _ := CloneDependencies(d, checked, git);
    r := Ok(code);
  }

  // ---------------------------------------------------------------------
  // The dict of the download test, in both readings
  // ---------------------------------------------------------------------

  /** `{"fetch": Dependency("fetch", url)}` of tests/test_downloader.py. */
  function FetchDict(url: string): (r: Dict<DepValue>)
    ensures r.Valid()
  {
    Dict(["fetch"], map["fetch" := DepValue("fetch", Some(url), None, [])])
  }

  /** Line 114: an unreachable url is kept all the same, where the flag of the
      pair would drop it. */
  lemma WrongLinkIsKept()
    ensures Outside(FetchDict("wrong_link").keys, {}) == ["fetch"]
    ensures FoundAmong(FetchDict("wrong_link").keys, FetchDict("wrong_link").vals, {}, u => false) == []
  {
    assert ["fetch"][..0] == [];
  }

  /** Line 85: downloading one new reachable dependency raises, where the
      corrected call clones it and reports success when git succeeds. */
  lemma FetchDownloadRaises()
    ensures DownloadAsWritten(Downloader("ws", {}, {}), FetchDict("https://github.com/niosus/catkin_tools_fetch"))
            == Raised(CloneArityError)
    ensures Download(Downloader("ws", {}, {}), FetchDict("https://github.com/niosus/catkin_tools_fetch"),
                     u => true, c => Succeeded("")) == NO_ERROR
  {
    assert ["fetch"][..0] == [];
    var v := DepValue("fetch", Some("https://github.com/niosus/catkin_tools_fetch"), None, []);
    assert Clone("fetch", "master", Succeeded("")).1 != ERROR_TAG;
    assert ProbeDep(v, u => true).0 == v;
  }
}
