/** The `Downloader` of the older generation (catkin_tools_fetch/fetcher/downloader.py):
    its dicts map a dependency name to one url. It keeps the names that are
    not ignored and whose url `git ls-remote` accepts, then clones those the
    workspace lacks and reports the git error code of the last clone that
    failed. `git ls-remote` is the oracle `lsRemote` (command line to success),
    `git clone` the oracle `git` (command line to outcome), `path.exists` the
    oracle `pathExists`. */
module FetcherDownloader {
  import opened Wrappers
  import opened Strs
  import opened Dicts
  import opened LibTools

  const NO_ERROR := 0

  const IGNORE_TAG := "[IGNORED]"
  const NOT_FOUND_TAG := "[NOT FOUND]"
  const CLONED_TAG := "[CLONED]"

  /** `ws_path`, `available_pkgs` and `ignore_pkgs`, fixed at construction. */
  datatype Downloader = Downloader(wsPath: string, availablePkgs: set<string>, ignorePkgs: set<string>)

  function MissingFolderError(wsPath: string): Exc
  {
    ValueError("\n            Folder '" + wsPath + "' is missing.\n            Are you running 'fetch' from a catkin workspace?\n            ")
  }

  /** `Downloader(ws_path, available_pkgs, ignore_pkgs)`: refused exactly when
      the workspace folder does not exist. */
  function NewDownloader(wsPath: string, availablePkgs: set<string>, ignorePkgs: set<string>,
                         pathExists: string -> bool): (r: Result<Downloader>)
    ensures r.Raised? <==> !pathExists(wsPath)
    ensures r.Raised? ==> r.exc == MissingFolderError(wsPath)
    ensures r.Ok? ==> r.value == Downloader(wsPath, availablePkgs, ignorePkgs)
  {
    if !pathExists(wsPath) then Raised(MissingFolderError(wsPath))
    else Ok(Downloader(wsPath, availablePkgs, ignorePkgs))
  }

  // ---------------------------------------------------------------------
  // repository_exists and __check_dependencies
  // ---------------------------------------------------------------------

  /** `GIT_CHECK_CMD_MASK.format(url=url)`. */
  function CheckCommand(url: string): string
  {
    "git ls-remote " + url
  }

  /** `repository_exists(url)`: the empty url is refused without asking git;
      any other exists exactly when `git ls-remote` succeeds on it. */
  function RepositoryExists(url: string, lsRemote: string -> bool): (r: bool)
    ensures url == "" ==> !r
    ensures url != "" ==> (r <==> lsRemote(CheckCommand(url)))
  {
    if url == "" then false else lsRemote(CheckCommand(url))
  }

  /** The names whose url is empty, for which git is never asked. */
  function EmptyUrlNames(depDict: Dict<string>): set<string>
  {
    set k | k in depDict.vals && depDict.vals[k] == ""
  }

  /** The names of `ks`, in order, that are not ignored and whose url exists. */
  function Reachable(ks: seq<string>, vals: map<string, string>, ignore: set<string>,
                     lsRemote: string -> bool): (r: seq<string>)
    requires forall k :: k in ks ==> k in vals
    ensures forall x :: x in r ==> x in ks
  {
    if ks == [] then []
    else
      var last := ks[|ks| - 1];
      assert forall x :: x in ks[..|ks| - 1] ==> x in ks;
      Reachable(ks[..|ks| - 1], vals, ignore, lsRemote)
      + (if last !in ignore && RepositoryExists(vals[last], lsRemote) then [last] else [])
  }

  /** `Reachable` of a list is that of its front, then its last name if kept. */
  lemma ReachableSnoc(ks: seq<string>, k: string, vals: map<string, string>, ignore: set<string>,
                      lsRemote: string -> bool)
    requires forall x :: x in ks + [k] ==> x in vals
    ensures Reachable(ks + [k], vals, ignore, lsRemote)
            == Reachable(ks, vals, ignore, lsRemote)
               + (if k !in ignore && RepositoryExists(vals[k], lsRemote) then [k] else [])
  {
    assert (ks + [k])[..|ks|] == ks;
  }

  /** A name is reachable exactly when it is listed, not ignored, and git
      accepts its non-empty url. */
  lemma {:induction false} ReachableSpec(ks: seq<string>, vals: map<string, string>, ignore: set<string>,
                                         lsRemote: string -> bool)
    requires forall k :: k in ks ==> k in vals
    ensures forall x :: x in Reachable(ks, vals, ignore, lsRemote) <==>
              x in ks && x !in ignore && vals[x] != "" && lsRemote(CheckCommand(vals[x]))
  {
    if ks != [] {
      var init := ks[..|ks| - 1];
      ReachableSpec(init, vals, ignore, lsRemote);
      assert forall x :: x in ks <==> x in init || x == ks[|ks| - 1];
    }
  }

  /** `__check_dependencies`: the dict of the names that are not ignored and
      whose repository exists, each with its url unchanged, in the input's
      order. `asked` lists, in order, the names whose url went to git: every
      name that is neither ignored nor without a url. */
  method CheckDependencies(d: Downloader, depDict: Dict<string>, lsRemote: string -> bool)
    returns (checked: Dict<string>, asked: seq<string>)
    requires depDict.Valid()
    ensures checked.Valid()
    ensures checked.keys == Reachable(depDict.keys, depDict.vals, d.ignorePkgs, lsRemote)
    ensures forall k :: k in checked.vals <==>
              k in depDict.vals && k !in d.ignorePkgs && depDict.vals[k] != "" && lsRemote(CheckCommand(depDict.vals[k]))
    ensures forall k :: k in checked.vals ==> checked.vals[k] == depDict.vals[k]
    ensures asked == Outside(depDict.keys, d.ignorePkgs + EmptyUrlNames(depDict))
  {
    checked := Empty();
    asked := [];
    if depDict.keys == [] {
      ReachableSpec(depDict.keys, depDict.vals, d.ignorePkgs, lsRemote);
      return;
    }
    var i := 0;
    assert depDict.keys[..0] == [];
    ghost var excluded := d.ignorePkgs + EmptyUrlNames(depDict);
    while i < |depDict.keys|
      invariant 0 <= i <= |depDict.keys| && checked.Valid()
      invariant checked.keys == Reachable(depDict.keys[..i], depDict.vals, d.ignorePkgs, lsRemote)
      invariant asked == Outside(depDict.keys[..i], excluded)
      invariant forall k :: k in checked.vals ==> checked.vals[k] == depDict.vals[k]
    {
      var name := depDict.keys[i];
      var url := depDict.vals[name];
      assert depDict.keys[..i + 1] == depDict.keys[..i] + [name];
      ReachableSnoc(depDict.keys[..i], name, depDict.vals, d.ignorePkgs, lsRemote);
      OutsideSnoc(depDict.keys[..i], name, excluded);
      assert name !in depDict.keys[..i];
      assert name in excluded <==> name in d.ignorePkgs || url == "";
      if name !in d.ignorePkgs {
        if url != "" {
          asked := asked + [name];
        }
        if RepositoryExists(url, lsRemote) {
          checked := checked.Put(name, url);
        }
      }
      i := i + 1;
    }
    assert depDict.keys[..i] == depDict.keys;
    ReachableSpec(depDict.keys, depDict.vals, d.ignorePkgs, lsRemote);
  }

  // ---------------------------------------------------------------------
  // __clone_dependencies
  // ---------------------------------------------------------------------

  /** `GIT_CLONE_CMD_MASK.format(url=url, path=dep_path)`. */
  function CloneCommand(url: string, depPath: string): string
  {
    "git clone --recursive " + url + " " + depPath
  }

  /** The outcome of cloning `name` from `url` into the workspace. */
  function CloneRun(d: Downloader, name: string, url: string, git: string -> GitRun): GitRun
  {
    git(CloneCommand(url, PathJoin(d.wsPath, name)))
  }

  /** A clone that counts as an error: git failed, and not because the folder
      already exists. */
  predicate HardFailure(run: GitRun)
  {
    run.Failed? && !Contains(run.output, "already exists")
  }

  /** A name of the dict whose clone is attempted and fails hard. */
  predicate FailsToClone(d: Downloader, name: string, url: string, git: string -> GitRun)
  {
    name !in d.availablePkgs && HardFailure(CloneRun(d, name, url, git))
  }

  /** The error code after cloning the names of `ks` in order: the return code
      of the last hard failure, `NO_ERROR` when there is none. */
  function LastError(d: Downloader, ks: seq<string>, vals: map<string, string>, git: string -> GitRun): int
    requires forall k :: k in ks ==> k in vals
  {
    if ks == [] then NO_ERROR
    else
      var last := ks[|ks| - 1];
      if FailsToClone(d, last, vals[last], git) then CloneRun(d, last, vals[last], git).returncode
      else LastError(d, ks[..|ks| - 1], vals, git)
  }

  /** With no hard failure among the names, the code is `NO_ERROR`. */
  lemma {:induction false} LastErrorNone(d: Downloader, ks: seq<string>, vals: map<string, string>,
                                         git: string -> GitRun)
    requires forall k :: k in ks ==> k in vals
    requires forall j :: 0 <= j < |ks| ==> !FailsToClone(d, ks[j], vals[ks[j]], git)
    ensures LastError(d, ks, vals, git) == NO_ERROR
  {
    if ks != [] {
      var init := ks[..|ks| - 1];
      assert forall j :: 0 <= j < |init| ==> init[j] == ks[j];
      LastErrorNone(d, init, vals, git);
    }
  }

  /** The code is the return code of the last name that fails hard: a failure
      followed by another is overwritten. */
  lemma {:induction false} LastErrorIsLastFailure(d: Downloader, ks: seq<string>, vals: map<string, string>,
                                                  git: string -> GitRun, j: nat)
    requires forall k :: k in ks ==> k in vals
    requires j < |ks| && FailsToClone(d, ks[j], vals[ks[j]], git)
    requires forall l :: j < l < |ks| ==> !FailsToClone(d, ks[l], vals[ks[l]], git)
    ensures LastError(d, ks, vals, git) == CloneRun(d, ks[j], vals[ks[j]], git).returncode
  {
    if j < |ks| - 1 {
      var init := ks[..|ks| - 1];
      assert forall l :: 0 <= l < |init| ==> init[l] == ks[l];
      LastErrorIsLastFailure(d, init, vals, git, j);
    }
  }

  /** Since git reports failure only with a non-zero code, the result is
      `NO_ERROR` exactly when no clone fails hard. */
  lemma LastErrorZeroIff(d: Downloader, ks: seq<string>, vals: map<string, string>, git: string -> GitRun)
    requires forall k :: k in ks ==> k in vals
    requires forall k :: k in ks && git(CloneCommand(vals[k], PathJoin(d.wsPath, k))).Failed? ==>
               git(CloneCommand(vals[k], PathJoin(d.wsPath, k))).returncode != 0
    ensures LastError(d, ks, vals, git) == NO_ERROR <==>
            forall k :: k in ks ==> !FailsToClone(d, k, vals[k], git)
  {
    if forall j :: 0 <= j < |ks| ==> !FailsToClone(d, ks[j], vals[ks[j]], git) {
      LastErrorNone(d, ks, vals, git);
    } else {
      var j :| 0 <= j < |ks| && FailsToClone(d, ks[j], vals[ks[j]], git);
      while j + 1 < |ks| && exists l :: j < l < |ks| && FailsToClone(d, ks[l], vals[ks[l]], git)
        invariant 0 <= j < |ks| && FailsToClone(d, ks[j], vals[ks[j]], git)
        decreases |ks| - j
      {
        var l :| j < l < |ks| && FailsToClone(d, ks[l], vals[ks[l]], git);
        j := l;
      }
      LastErrorIsLastFailure(d, ks, vals, git, j);
    }
  }

  /** `__clone_dependencies`: every checked name the workspace lacks is cloned
      once, in dict order, into `ws_path/name`; the result is the code of the
      last hard failure. */
  method CloneDependencies(d: Downloader, checked: Dict<string>, git: string -> GitRun)
    returns (errorCode: int, cloned: seq<string>)
    requires checked.Valid()
    ensures cloned == Outside(checked.keys, d.availablePkgs)
    ensures errorCode == LastError(d, checked.keys, checked.vals, git)
  {
    cloned := [];
    if checked.keys == [] {
      return NO_ERROR, cloned;
    }
    errorCode := NO_ERROR;
    var i := 0;
    while i < |checked.keys|
      invariant 0 <= i <= |checked.keys|
      invariant cloned == Outside(checked.keys[..i], d.availablePkgs)
      invariant errorCode == LastError(d, checked.keys[..i], checked.vals, git)
    {
      var name := checked.keys[i];
      var url := checked.vals[name];
      assert checked.keys[..i + 1][..i] == checked.keys[..i];
      if name !in d.availablePkgs {
        var depPath := PathJoin(d.wsPath, name);
        var run := git(CloneCommand(url, depPath));
        cloned := cloned + [name];
        if run.Failed? && !Contains(run.output, "already exists") {
          errorCode := run.returncode;
        }
      }
      i := i + 1;
    }
    assert checked.keys[..i] == checked.keys;
  }

  // ---------------------------------------------------------------------
  // download_dependencies
  // ---------------------------------------------------------------------

  /** The argument of `download_dependencies`: a dict, or anything else. */
  datatype DepArg = DictArg(deps: Dict<string>) | NotADict

  const NotADictError := ValueError("expected a dictionary with dependencies.")

  /** What `download_dependencies` returns for a dict: the last hard clone
      failure among the reachable names. */
  function Download(d: Downloader, depDict: Dict<string>, lsRemote: string -> bool, git: string -> GitRun): int
    requires depDict.Valid()
  {
    LastError(d, Reachable(depDict.keys, depDict.vals, d.ignorePkgs, lsRemote), depDict.vals, git)
  }

  /** `download_dependencies`: `ValueError` for anything but a dict. */
  method DownloadDependencies(d: Downloader, arg: DepArg, lsRemote: string -> bool, git: string -> GitRun)
    returns (r: Result<int>)
    requires arg.DictArg? ==> arg.deps.Valid()
    ensures arg.NotADict? ==> r == Raised(NotADictError)
    ensures arg.DictArg? ==> r == Ok(Download(d, arg.deps, lsRemote, git))
  {
    if arg.NotADict? {
      return Raised(NotADictError);
    }
    var checked, _ := CheckDependencies(d, arg.deps, lsRemote);
    var code, _ := CloneDependencies(d, checked, git);
    LastErrorSameVals(d, checked.keys, checked.vals, arg.deps.vals, git);
    r := Ok(code);
  }

  /** The code only reads the urls of the names it clones. */
  lemma {:induction false} LastErrorSameVals(d: Downloader, ks: seq<string>, a: map<string, string>,
                                             b: map<string, string>, git: string -> GitRun)
    requires forall k :: k in ks ==> k in a && k in b && a[k] == b[k]
    ensures LastError(d, ks, a, git) == LastError(d, ks, b, git)
  {
    if ks != [] {
      LastErrorSameVals(d, ks[..|ks| - 1], a, b, git);
    }
  }

  /** A download in which git accepts no url reports success and clones
      nothing, whatever `git clone` would have done. */
  lemma NothingReachableIsNoError(d: Downloader, depDict: Dict<string>, lsRemote: string -> bool,
                                  git: string -> GitRun)
    requires depDict.Valid() && forall k :: k in depDict.vals ==> !lsRemote(CheckCommand(depDict.vals[k]))
    ensures Reachable(depDict.keys, depDict.vals, d.ignorePkgs, lsRemote) == []
    ensures Download(d, depDict, lsRemote, git) == NO_ERROR
  {
    ReachableSpec(depDict.keys, depDict.vals, d.ignorePkgs, lsRemote);
    NoMemberEmpty(Reachable(depDict.keys, depDict.vals, d.ignorePkgs, lsRemote));
  }

  /** A sequence without members is empty. */
  lemma NoMemberEmpty(s: seq<string>)
    ensures (forall x :: x !in s) ==> s == []
  {
    if s != [] {
      assert s[0] in s;
    }
  }
}
