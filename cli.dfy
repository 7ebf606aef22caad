/** The `fetch` verb (catkin_tools_fetch/cli.py) over the older parser and
    downloader: round after round it scans the workspace, parses the
    `package.xml` of every selected package not parsed yet, merges their
    dependencies and downloads them, until a round parses nothing new.
    The workspace scan, the manifests, the filesystem and git are oracles in
    an `Env`; the scan is indexed by the round, since each round's clones
    change what the next one finds. */
module Cli {
  import opened Wrappers
  import opened Strs
  import opened Dicts
  import opened Manifest
  import LibTools
  import FetcherTools
  import FetcherParser
  import FetcherDownloader

  /** A package `find_packages` reports: its folder below `src` and its name. */
  datatype WsPackage = WsPackage(path: string, name: string)

  /** The world `fetch` runs in. `scan(n)` is what `find_packages` reports in
      round `n`; `manifest` gives the parsed `package.xml` of a folder, `None`
      when it has none; `rosPkgs` is what `list_all_ros_pkgs` reports; every
      name the scans ever report lies in the finite set `universe`. */
  datatype Env = Env(scan: nat -> seq<WsPackage>, manifest: string -> Option<Document>,
                     pathExists: string -> bool, lsRemote: string -> bool,
                     git: string -> LibTools.GitRun, rosPkgs: set<string>, universe: set<string>)

  /** The workspace holds finitely many package names, in every round. */
  ghost predicate Finite(env: Env)
  {
    forall n: nat, j :: 0 <= j < |env.scan(n)| ==> env.scan(n)[j].name in env.universe
  }

  function Names(pkgs: seq<WsPackage>): (names: set<string>)
    ensures forall j :: 0 <= j < |pkgs| ==> pkgs[j].name in names
    ensures forall x :: x in names ==> exists j :: 0 <= j < |pkgs| && pkgs[j].name == x
  {
    set p | p in pkgs :: p.name
  }

  /** `fetch_all or (package.name in packages)`, `fetch_all` being an empty
      package list. */
  predicate Selected(packages: seq<string>, name: string)
  {
    |packages| == 0 || name in packages
  }

  /** `deps_to_fetch.update(None)` for a folder without a `package.xml`. */
  const NoneUpdateError := TypeError("'NoneType' object is not iterable")

  /** What a round has gathered: the merged dependencies and the names
      parsed so far (`already_fetched`). */
  datatype RoundState = RoundState(deps: Dict<string>, fetched: set<string>)

  /** The inner loop of one round over the scanned packages, front to back:
      names already parsed and unselected names are skipped; any other is
      parsed, its dependencies merged in (later ones win) and its name
      recorded. A bad mask, a missing `package.xml` or an incomplete
      `git_url` raises out of `fetch`. A round only ever adds selected,
      scanned names, and a round that adds none leaves the dependencies as
      they were. */
  function ParseRound(mask: string, wsPath: string, packages: seq<string>, pkgs: seq<WsPackage>,
                      manifest: string -> Option<Document>, st: RoundState): (r: Result<RoundState>)
    requires st.deps.Valid()
    ensures r.Ok? ==> r.value.deps.Valid()
    decreases |pkgs|
  {
    if pkgs == [] then Ok(st)
    else
      var pkg := pkgs[0];
      if pkg.name in st.fetched || !Selected(packages, pkg.name) then
        ParseRound(mask, wsPath, packages, pkgs[1..], manifest, st)
      else
        var e := ParsePackage(mask, pkg.name, manifest(PathJoin(wsPath, pkg.path)));
        if e.Raised? then Raised(e.exc)
        else
          ParseRound(mask, wsPath, packages, pkgs[1..], manifest,
                     RoundState(st.deps.Update(e.value), st.fetched + {pkg.name}))
  }

  /** A round only adds names of scanned, selected packages it had not parsed
      before, and a round that adds none leaves the dependencies as they were. */
  lemma {:induction false} RoundGrows(mask: string, wsPath: string, packages: seq<string>, pkgs: seq<WsPackage>,
                                      manifest: string -> Option<Document>, st: RoundState)
    requires st.deps.Valid()
    ensures var r := ParseRound(mask, wsPath, packages, pkgs, manifest, st);
            r.Ok? ==> && st.fetched <= r.value.fetched <= st.fetched + Names(pkgs)
                      && (forall x :: x in r.value.fetched && x !in st.fetched ==> Selected(packages, x))
                      && (r.value.fetched == st.fetched ==> r.value.deps == st.deps)
    decreases |pkgs|
  {
    if pkgs != [] {
      var pkg := pkgs[0];
      assert Names(pkgs[1..]) <= Names(pkgs) by {
        forall x | x in Names(pkgs[1..]) ensures x in Names(pkgs) {
          var j :| 0 <= j < |pkgs[1..]| && pkgs[1..][j].name == x;
          assert pkgs[j + 1].name == x;
        }
      }
      if pkg.name in st.fetched || !Selected(packages, pkg.name) {
        RoundGrows(mask, wsPath, packages, pkgs[1..], manifest, st);
      } else {
        var e := ParsePackage(mask, pkg.name, manifest(PathJoin(wsPath, pkg.path)));
        if e.Ok? {
          RoundGrows(mask, wsPath, packages, pkgs[1..], manifest,
                     RoundState(st.deps.Update(e.value), st.fetched + {pkg.name}));
        }
      }
    }
  }

  /** The converse of `RoundGrows`: a round that succeeds has parsed every
      selected package it scanned ("if no packages are given, all packages
      are processed"). */
  lemma {:induction false} RoundParsesAllSelected(mask: string, wsPath: string, packages: seq<string>,
                                                  pkgs: seq<WsPackage>, manifest: string -> Option<Document>,
                                                  st: RoundState)
    requires st.deps.Valid()
    ensures var r := ParseRound(mask, wsPath, packages, pkgs, manifest, st);
            r.Ok? ==> && st.fetched <= r.value.fetched
                      && forall j :: 0 <= j < |pkgs| && Selected(packages, pkgs[j].name) ==> pkgs[j].name in r.value.fetched
    decreases |pkgs|
  {
    if pkgs != [] {
      var pkg := pkgs[0];
      var st' := st;
      if !(pkg.name in st.fetched || !Selected(packages, pkg.name)) {
        var e := ParsePackage(mask, pkg.name, manifest(PathJoin(wsPath, pkg.path)));
        if e.Raised? {
          return;
        }
        st' := RoundState(st.deps.Update(e.value), st.fetched + {pkg.name});
      }
      assert ParseRound(mask, wsPath, packages, pkgs, manifest, st)
             == ParseRound(mask, wsPath, packages, pkgs[1..], manifest, st');
      RoundParsesAllSelected(mask, wsPath, packages, pkgs[1..], manifest, st');
      forall j | 1 <= j < |pkgs|
        ensures pkgs[j] == pkgs[1..][j - 1]
      {
      }
    }
  }

  /** Where `fetch` stops (a round that parses nothing new, cli.py's
      `len(already_fetched) == before`), every selected package of that
      round's scan had been parsed already. */
  lemma StopMeansAllParsed(mask: string, wsPath: string, packages: seq<string>, pkgs: seq<WsPackage>,
                           manifest: string -> Option<Document>, st: RoundState)
    requires st.deps.Valid()
    ensures var r := ParseRound(mask, wsPath, packages, pkgs, manifest, st);
            r.Ok? && |r.value.fetched| == |st.fetched| ==>
              forall j :: 0 <= j < |pkgs| && Selected(packages, pkgs[j].name) ==> pkgs[j].name in st.fetched
  {
    var r := ParseRound(mask, wsPath, packages, pkgs, manifest, st);
    RoundParsesAllSelected(mask, wsPath, packages, pkgs, manifest, st);
    if r.Ok? {
      SupersetSize(st.fetched, r.value.fetched);
    }
  }

  /** A package already parsed, or not selected, is skipped. */
  lemma ParseRoundSkip(mask: string, wsPath: string, packages: seq<string>, pkgs: seq<WsPackage>,
                       manifest: string -> Option<Document>, st: RoundState)
    requires st.deps.Valid() && pkgs != []
    requires pkgs[0].name in st.fetched || !Selected(packages, pkgs[0].name)
    ensures ParseRound(mask, wsPath, packages, pkgs, manifest, st)
            == ParseRound(mask, wsPath, packages, pkgs[1..], manifest, st)
  {
  }

  /** A selected package not parsed before has its dependencies merged in. */
  lemma ParseRoundParsed(mask: string, wsPath: string, packages: seq<string>, pkgs: seq<WsPackage>,
                         manifest: string -> Option<Document>, st: RoundState, e: Dict<string>)
    requires st.deps.Valid() && pkgs != []
    requires pkgs[0].name !in st.fetched && Selected(packages, pkgs[0].name)
    requires ParsePackage(mask, pkgs[0].name, manifest(PathJoin(wsPath, pkgs[0].path))) == Ok(e)
    ensures ParseRound(mask, wsPath, packages, pkgs, manifest, st)
            == ParseRound(mask, wsPath, packages, pkgs[1..], manifest,
                          RoundState(st.deps.Update(e), st.fetched + {pkgs[0].name}))
  {
  }

  /** One package of a round: the parser for it, then its manifest; a missing
      `package.xml` makes `get_dependencies` return `None`, which `update`
      cannot iterate. */
  function ParsePackage(mask: string, pkgName: string, doc: Option<Document>): (r: Result<Dict<string>>)
    ensures r.Ok? ==> r.value.Valid()
    ensures !Contains(mask, LibTools.PACKAGE_TAG) ==> r == Raised(FetcherParser.MaskError)
    ensures Contains(mask, LibTools.PACKAGE_TAG) && doc.None? ==> r == Raised(NoneUpdateError)
  {
    var parser := FetcherParser.NewParser(mask, pkgName);
    if parser.Raised? then Raised(parser.exc)
    else if doc.None? then Raised(NoneUpdateError)
    else
      FetcherParser.ExplicitUrls(doc.value.gitUrls,
        FetcherParser.InitialUrls(parser.value.downloadMask, FetcherParser.BuildNames(doc.value)))
  }

  /** A mask without `{package}` stops the round at the first package it
      would parse, and only there; a round that parses nothing succeeds and
      changes nothing. */
  lemma {:induction false} BadMaskParsesNothing(mask: string, wsPath: string, packages: seq<string>,
                                                pkgs: seq<WsPackage>, manifest: string -> Option<Document>,
                                                st: RoundState)
    requires st.deps.Valid() && !Contains(mask, LibTools.PACKAGE_TAG)
    ensures var r := ParseRound(mask, wsPath, packages, pkgs, manifest, st);
            && (r == Raised(FetcherParser.MaskError) <==>
                  exists j :: 0 <= j < |pkgs| && Selected(packages, pkgs[j].name) && pkgs[j].name !in st.fetched)
            && (r.Ok? ==> r.value == st)
    decreases |pkgs|
  {
    if pkgs != [] {
      BadMaskParsesNothing(mask, wsPath, packages, pkgs[1..], manifest, st);
      var pkg := pkgs[0];
      if pkg.name in st.fetched || !Selected(packages, pkg.name) {
        var wanted := exists j :: 0 <= j < |pkgs| && Selected(packages, pkgs[j].name) && pkgs[j].name !in st.fetched;
        if wanted {
          var j :| 0 <= j < |pkgs| && Selected(packages, pkgs[j].name) && pkgs[j].name !in st.fetched;
          assert j > 0 && pkgs[1..][j - 1] == pkgs[j];
        }
        if exists j :: 0 <= j < |pkgs[1..]| && Selected(packages, pkgs[1..][j].name) && pkgs[1..][j].name !in st.fetched {
          var j :| 0 <= j < |pkgs[1..]| && Selected(packages, pkgs[1..][j].name) && pkgs[1..][j].name !in st.fetched;
          assert pkgs[j + 1] == pkgs[1..][j];
        }
      }
    }
  }

  /** A superset is as large as the subset and what it adds. */
  lemma SupersetSize(a: set<string>, b: set<string>)
    requires a <= b
    ensures |b| == |a| + |b - a|
    ensures |b| == |a| ==> b == a
  {
    assert b == a + (b - a);
    assert a * (b - a) == {};
  }

  /** `|U - b| < |U - a|` once `b` has gained something over `a` inside `U`. */
  lemma FewerLeft(a: set<string>, b: set<string>, u: set<string>)
    requires a <= b <= u && |a| != |b|
    ensures |u - b| < |u - a|
  {
    SupersetSize(a, b);
    SupersetSize(u - b, u - a);
    assert (u - a) - (u - b) == b - a;
  }

  /** The outer loop of `fetch` from round `n` on, with `fetched` parsed
      before it and `globalErr` the code kept so far: a missing workspace
      folder returns 1, a round that parses nothing new returns the kept
      code (ignoring its own download's), any other round keeps its
      download's code when that is not zero and goes on. */
  function FetchFrom(mask: string, wsPath: string, packages: seq<string>, env: Env,
                     n: nat, fetched: set<string>, globalErr: int): Result<int>
    requires Finite(env) && fetched <= env.universe
    decreases |env.universe - fetched|
  {
    var pkgs := env.scan(n);
    var round := ParseRound(mask, wsPath, packages, pkgs, env.manifest, RoundState(Empty(), fetched));
    RoundGrows(mask, wsPath, packages, pkgs, env.manifest, RoundState(Empty(), fetched));
    if round.Raised? then Raised(round.exc)
    else
      var dl := FetcherDownloader.NewDownloader(wsPath, Names(pkgs), env.rosPkgs, env.pathExists);
      if dl.Raised? then Ok(1)
      else
        var err := FetcherDownloader.Download(dl.value, round.value.deps, env.lsRemote, env.git);
        if |round.value.fetched| == |fetched| then Ok(globalErr)
        else
          assert Names(pkgs) <= env.universe;
          FewerLeft(fetched, round.value.fetched, env.universe);
          FetchFrom(mask, wsPath, packages, env, n + 1, round.value.fetched,
                    if err != FetcherDownloader.NO_ERROR then err else globalErr)
  }

  /** `fetch(packages, workspace, context, default_url)`. */
  function FetchSpec(packages: seq<string>, workspace: string, defaultUrl: string, env: Env): Result<int>
    requires Finite(env)
  {
    FetchFrom(defaultUrl, PathJoin(workspace, "src"), packages, env, 0, {}, FetcherDownloader.NO_ERROR)
  }

  /** The body of the inner loop for one selected package: the parser, then
      `get_dependencies` on its folder, whose `None` cannot be iterated. */
  method ParseOne(mask: string, pkgName: string, doc: Option<Document>) returns (r: Result<Dict<string>>)
    ensures r == ParsePackage(mask, pkgName, doc)
  {
    var parser := FetcherParser.NewParser(mask, pkgName);
    if parser.Raised? {
      return Raised(parser.exc);
    }
    var got := FetcherParser.GetDependencies(parser.value, doc);
    if got.Raised? {
      return Raised(got.exc);
    }
    if got.value.None? {
      return Raised(NoneUpdateError);
    }
    return Ok(got.value.value);
  }

  /** The inner loop of one round. */
  method ParsePackages(mask: string, wsPath: string, packages: seq<string>, pkgs: seq<WsPackage>,
                       manifest: string -> Option<Document>, deps0: Dict<string>, fetched0: set<string>)
    returns (r: Result<RoundState>)
    requires deps0.Valid()
    ensures r == ParseRound(mask, wsPath, packages, pkgs, manifest, RoundState(deps0, fetched0))
  {
    var depsToFetch := deps0;
    var alreadyFetched := fetched0;
    var fetchAll := |packages| == 0;
    var i := 0;
    assert pkgs[0..] == pkgs;
    ghost var round := ParseRound(mask, wsPath, packages, pkgs, manifest, RoundState(deps0, fetched0));
    assert round == ParseRound(mask, wsPath, packages, pkgs[i..], manifest, RoundState(depsToFetch, alreadyFetched));
    while i < |pkgs|
      invariant 0 <= i <= |pkgs| && depsToFetch.Valid()
      invariant round == ParseRound(mask, wsPath, packages, pkgs[i..], manifest, RoundState(depsToFetch, alreadyFetched))
    {
      var package := pkgs[i];
      assert pkgs[i..][0] == package && pkgs[i..][1..] == pkgs[i + 1..];
      if package.name !in alreadyFetched && (fetchAll || package.name in packages) {
        var packageFolder := PathJoin(wsPath, package.path);
        var got := ParseOne(mask, package.name, manifest(packageFolder));
        if got.Raised? {
          return Raised(got.exc);
        }
        var deps := got.value;
        assert round == ParseRound(mask, wsPath, packages, pkgs[i + 1..], manifest,
                                   RoundState(depsToFetch.Update(deps), alreadyFetched + {package.name})) by {
          ParseRoundParsed(mask, wsPath, packages, pkgs[i..], manifest, RoundState(depsToFetch, alreadyFetched), deps);
        }
        depsToFetch := depsToFetch.Update(deps);
        alreadyFetched := alreadyFetched + {package.name};
      } else {
        assert round == ParseRound(mask, wsPath, packages, pkgs[i + 1..], manifest, RoundState(depsToFetch, alreadyFetched)) by {
          ParseRoundSkip(mask, wsPath, packages, pkgs[i..], manifest, RoundState(depsToFetch, alreadyFetched));
        }
      }
      i := i + 1;
    }
    assert pkgs[i..] == [];
    return Ok(RoundState(depsToFetch, alreadyFetched));
  }

  /** `fetch`: the rounds of the `while(True)` loop. */
  method Fetch(packages: seq<string>, workspace: string, defaultUrl: string, env: Env)
    returns (r: Result<int>)
    requires Finite(env)
    ensures r == FetchSpec(packages, workspace, defaultUrl, env)
  {
    var wsPath := PathJoin(workspace, "src");
    var alreadyFetched: set<string> := {};
    var globalErrorCode := FetcherDownloader.NO_ERROR;
    var n: nat := 0;
    while true
      invariant alreadyFetched <= env.universe
      invariant FetchFrom(defaultUrl, wsPath, packages, env, n, alreadyFetched, globalErrorCode)
                == FetchSpec(packages, workspace, defaultUrl, env)
      decreases |env.universe - alreadyFetched|
    {
      var workspacePackages := env.scan(n);
      var availablePkgs := Names(workspacePackages);
      var initialClonedPkgs := |alreadyFetched|;
      var round := ParsePackages(defaultUrl, wsPath, packages, workspacePackages, env.manifest,
                                 Empty(), alreadyFetched);
      if round.Raised? {
        return Raised(round.exc);
      }
      var downloader := FetcherDownloader.NewDownloader(wsPath, availablePkgs, env.rosPkgs, env.pathExists);
      if downloader.Raised? {
        return Ok(1);
      }
      var errorCode := FetcherDownloader.DownloadDependencies(downloader.value, FetcherDownloader.DictArg(round.value.deps),
                                                              env.lsRemote, env.git);
      if |round.value.fetched| == initialClonedPkgs {
        return Ok(globalErrorCode);
      }
      RoundGrows(defaultUrl, wsPath, packages, workspacePackages, env.manifest, RoundState(Empty(), alreadyFetched));
      assert availablePkgs <= env.universe;
      FewerLeft(alreadyFetched, round.value.fetched, env.universe);
      if errorCode.value != 0 {
        globalErrorCode := errorCode.value;
      }
      alreadyFetched := round.value.fetched;
      n := n + 1;
    }
  }

  /** The round that ends the loop has nothing to download, so the code it
      ignores is always zero. */
  lemma IgnoredCodeIsNoError(mask: string, wsPath: string, packages: seq<string>, pkgs: seq<WsPackage>,
                             env: Env, fetched: set<string>, d: FetcherDownloader.Downloader)
    requires var round := ParseRound(mask, wsPath, packages, pkgs, env.manifest, RoundState(Empty(), fetched));
             round.Ok? && |round.value.fetched| == |fetched|
    ensures var round := ParseRound(mask, wsPath, packages, pkgs, env.manifest, RoundState(Empty(), fetched));
            FetcherDownloader.Download(d, round.value.deps, env.lsRemote, env.git) == FetcherDownloader.NO_ERROR
  {
    var round := ParseRound(mask, wsPath, packages, pkgs, env.manifest, RoundState(Empty(), fetched));
    RoundGrows(mask, wsPath, packages, pkgs, env.manifest, RoundState(Empty(), fetched));
    SupersetSize(fetched, round.value.fetched);
    assert round.value.deps == Empty();
    FetcherDownloader.NothingReachableIsNoError(d, Empty(), env.lsRemote, env.git);
  }

  /** When no clone fails and the workspace folder exists, `fetch` returns
      the code it started with, or raises. */
  lemma {:induction false} CleanClonesKeepCode(mask: string, wsPath: string, packages: seq<string>, env: Env,
                                               n: nat, fetched: set<string>, globalErr: int)
    requires Finite(env) && fetched <= env.universe
    requires forall cmd :: !FetcherDownloader.HardFailure(env.git(cmd))
    requires env.pathExists(wsPath)
    ensures var r := FetchFrom(mask, wsPath, packages, env, n, fetched, globalErr);
            r.Ok? ==> r.value == globalErr
    decreases |env.universe - fetched|
  {
    var pkgs := env.scan(n);
    var round := ParseRound(mask, wsPath, packages, pkgs, env.manifest, RoundState(Empty(), fetched));
    RoundGrows(mask, wsPath, packages, pkgs, env.manifest, RoundState(Empty(), fetched));
    if round.Ok? && |round.value.fetched| != |fetched| {
      var d := FetcherDownloader.Downloader(wsPath, Names(pkgs), env.rosPkgs);
      var deps := round.value.deps;
      var ks := FetcherDownloader.Reachable(deps.keys, deps.vals, d.ignorePkgs, env.lsRemote);
      FetcherDownloader.LastErrorNone(d, ks, deps.vals, env.git);
      assert Names(pkgs) <= env.universe;
      FewerLeft(fetched, round.value.fetched, env.universe);
      CleanClonesKeepCode(mask, wsPath, packages, env, n + 1, round.value.fetched, globalErr);
    }
  }

  /** With an explicit package list, only those packages are ever parsed:
      the dependencies of a dependency are downloaded but not followed. */
  lemma OnlySelectedAreParsed(mask: string, wsPath: string, packages: seq<string>, env: Env,
                              fetched: set<string>, m: nat)
    requires Finite(env) && fetched <= env.universe && |packages| > 0
    requires forall x :: x in fetched ==> x in packages
    ensures var round := ParseRound(mask, wsPath, packages, env.scan(m), env.manifest, RoundState(Empty(), fetched));
            round.Ok? ==> forall x :: x in round.value.fetched ==> x in packages
  {
    var round := ParseRound(mask, wsPath, packages, env.scan(m), env.manifest, RoundState(Empty(), fetched));
    RoundGrows(mask, wsPath, packages, env.scan(m), env.manifest, RoundState(Empty(), fetched));
    if round.Ok? {
      forall x | x in round.value.fetched ensures x in packages {
        if x !in fetched {
          assert Selected(packages, x);
        }
      }
    }
  }

  /** The options `main` reads: the workspace (`None` when there is none),
      `--update`, the verb, the package names and `--default_url`. */
  datatype Opts = Opts(workspace: Option<string>, update: bool, verb: string,
                       packages: seq<string>, defaultUrl: string)

  /** `not opts.workspace`. */
  predicate NoWorkspace(opts: Opts)
  {
    opts.workspace.None? || opts.workspace.value == ""
  }

  /** `main(opts)`: 1 without a workspace or with `--update`; the result of
      `fetch` for the `fetch` verb, with the default url prepared; `None`
      (the function falls off its end) for any other verb. */
  method RunVerb(opts: Opts, env: Env) returns (r: Result<Option<int>>)
    requires Finite(env)
    ensures NoWorkspace(opts) ==> r == Ok(Some(1))
    ensures !NoWorkspace(opts) && opts.update ==> r == Ok(Some(1))
    ensures !NoWorkspace(opts) && !opts.update && opts.verb != "fetch" ==> r == Ok(None)
    ensures !NoWorkspace(opts) && !opts.update && opts.verb == "fetch" ==>
              var f := FetchSpec(opts.packages, opts.workspace.value, FetcherTools.PrepareDefaultUrl(opts.defaultUrl), env);
              r == if f.Ok? then Ok(Some(f.value)) else Raised(f.exc)
  {
    var defaultUrl := FetcherTools.PrepareDefaultUrl(opts.defaultUrl);
    if NoWorkspace(opts) {
      return Ok(Some(1));
    }
    if opts.update {
      return Ok(Some(1));
    }
    if opts.verb == "fetch" {
      var f := Fetch(opts.packages, opts.workspace.value, defaultUrl, env);
      if f.Raised? {
        return Raised(f.exc);
      }
      return Ok(Some(f.value));
    }
    return Ok(None);
  }

  /** `--default_url`'s default, `{package}`, prepares to a usable mask, so
      with it no round is refused for the mask. */
  lemma DefaultUrlIsMask(wsPath: string, packages: seq<string>, pkgs: seq<WsPackage>,
                         manifest: string -> Option<Document>, st: RoundState)
    requires st.deps.Valid()
    ensures Contains(FetcherTools.PrepareDefaultUrl(LibTools.PACKAGE_TAG), LibTools.PACKAGE_TAG)
    ensures ParseRound(FetcherTools.PrepareDefaultUrl(LibTools.PACKAGE_TAG), wsPath, packages, pkgs, manifest, st)
            != Raised(FetcherParser.MaskError)
  {
    assert StartsWith(LibTools.PACKAGE_TAG, LibTools.PACKAGE_TAG);
    FetcherTools.PrepareDefaultUrlHasTag(LibTools.PACKAGE_TAG);
    MaskedRoundNeverMaskError(FetcherTools.PrepareDefaultUrl(LibTools.PACKAGE_TAG), wsPath, packages, pkgs, manifest, st);
  }

  /** A mask with the placeholder never raises the mask error. */
  lemma {:induction false} MaskedRoundNeverMaskError(mask: string, wsPath: string, packages: seq<string>,
                                                     pkgs: seq<WsPackage>, manifest: string -> Option<Document>,
                                                     st: RoundState)
    requires st.deps.Valid() && Contains(mask, LibTools.PACKAGE_TAG)
    ensures ParseRound(mask, wsPath, packages, pkgs, manifest, st) != Raised(FetcherParser.MaskError)
    decreases |pkgs|
  {
    if pkgs != [] {
      var pkg := pkgs[0];
      if pkg.name in st.fetched || !Selected(packages, pkg.name) {
        MaskedRoundNeverMaskError(mask, wsPath, packages, pkgs[1..], manifest, st);
      } else {
        var p := FetcherParser.NewParser(mask, pkg.name).value;
        var doc := manifest(PathJoin(wsPath, pkg.path));
        if doc.Some? {
          var e := FetcherParser.ExplicitUrls(doc.value.gitUrls,
                     FetcherParser.InitialUrls(p.downloadMask, FetcherParser.BuildNames(doc.value)));
          if e.Raised? {
            FetcherParser.ExplicitUrlsError(doc.value.gitUrls,
              FetcherParser.InitialUrls(p.downloadMask, FetcherParser.BuildNames(doc.value)));
          } else {
            MaskedRoundNeverMaskError(mask, wsPath, packages, pkgs[1..], manifest,
                                      RoundState(st.deps.Update(e.value), st.fetched + {pkg.name}));
          }
        }
      }
    }
  }
}
