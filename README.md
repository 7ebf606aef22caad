# catkin_tools_fetch, modelled in Dafny

catkin_tools_fetch is a `catkin` verb that reads the `package.xml` of the
packages in a ROS workspace. For every dependency it finds, it decides where to
download it from and clones what is missing, and it can pull the packages
already checked out. The repository holds two generations of the tool, and this
project models the decision logic of both:

- **The newer generation** (`lib/`) works on `Dependency` objects and several
  url templates. It has:
  - the url-template rules of `Tools` and the git output parsing of `GitBridge` (`lib_tools.dfy`);
  - `repository_exists` and the dependency-dict merge `update_deps_dict` (`lib_tools_deps.dfy`);
  - the `Dependency` class and the manifest `Parser` (`lib_dependency.dfy`);
  - the `Downloader` (`lib_downloader.dfy`);
  - the `Updater` (`lib_update.dfy`);
  - the console `Printer` (`lib_printer.dfy`).
- **The older generation** (`fetcher/`, `cli.py`, `update/`) works on plain
  `name -> url` dicts and one download mask. It has:
  - its `prepare_default_url` and `decorate` (`fetcher_tools.dfy`);
  - its parser (`fetcher_parser.dfy`) and its downloader (`fetcher_downloader.dfy`);
  - the `fetch` verb with its round-by-round fixed-point loop (`cli.dfy`);
  - `update_folders` with its status tags (`update_folders.dfy`).

Shared support lives in four files:

- `wrappers.dfy` holds `Option`, the Python exceptions as values, and `Result`;
- `strings.dfy` holds the `str` operations used;
- `dicts.dfy` holds an insertion-ordered dict;
- `manifest.dfy` holds a parsed `package.xml`: dependency texts per tag and the `git_url` items.

Every git, subprocess, filesystem and XML call is a function-typed parameter
(an oracle) or an already-parsed input:

- `git ls-remote` is `probe` or `lsRemote`;
- `git clone` and the other git commands are `git`, a map from command line to outcome;
- `path.exists` is `pathExists`;
- `os.listdir` and `minidom` give way to an `Option<Document>`;
- `find_packages` is `Env.scan`, indexed by the round of the fetch loop.

An exception the source raises is the `Raised` case of a `Result`, or a
`failure` field. State the source changes in place is a class wherever that
verifies: `Dependency`, `Parser` and `Printer`. Loops in the source are
`while` loops proved against a function of their inputs.

## Model

| member | source | states |
|---|---|---|
| LibTools.PrepareDefaultUrl | catkin_tools_fetch/lib/tools.py:174-185 | a url that already holds `{package}` is returned as it is; every non-`None` result holds `{package}` |
| LibTools.PrepareDefaultUrlIdempotent | catkin_tools_fetch/lib/tools.py:174-185 | preparing a prepared url gives it back unchanged |
| LibTools.PrepareDefaultUrlGit | catkin_tools_fetch/lib/tools.py:176-180 | a `git` url without the tag and not ending in `.git` gets a `/` when missing, then `{package}.git` |
| LibTools.PrepareDefaultUrlGitSuffix | catkin_tools_fetch/lib/tools.py:178-183 | a `git` url ending in `.git` without the tag gives `None` |
| LibTools.PrepareDefaultUrlHttp | catkin_tools_fetch/lib/tools.py:176-185 | an `http` url without the tag gets a `/` unless it ends in `/` or `.git`, then `{package}` |
| LibTools.PrepareDefaultUrlOther | catkin_tools_fetch/lib/tools.py:178-185 | any other prefix without the tag gives `None` |
| LibTools.PrepareDefaultUrlEmpty | catkin_tools_fetch/lib/tools.py:174-185 | the empty url gives `None` |
| LibTools.PreparedSetSpec | catkin_tools_fetch/lib/tools.py:152-159 | a url is in the prepared set iff some comma-separated piece prepares to it and is truthy |
| LibTools.PrepareDefaultUrls | catkin_tools_fetch/lib/tools.py:140-159 | the loop yields exactly the truthy prepared forms of the pieces, each holding `{package}` |
| LibTools.PopulatedMembers | catkin_tools_fetch/lib/tools.py:188-197 | a populated url is exactly a template holding `{package}` with the name filled in |
| LibTools.PopulatedConcat | catkin_tools_fetch/lib/tools.py:188-197 | populating keeps the input order, piece by piece |
| LibTools.PopulateUrlsWithName | catkin_tools_fetch/lib/tools.py:188-197 | the loop gives the in-order populated list, templates without the tag dropped |
| LibTools.Decorate | catkin_tools_fetch/lib/tools.py:233-236 | the name in brackets, right-padded with spaces to `max_width` |
| LibTools.WordRunUnique | catkin_tools_fetch/lib/tools.py:24 | the maximal `[\w-]` run is the only prefix run that stops at a non-word character |
| LibTools.GetBranchName | catkin_tools_fetch/lib/tools.py:117-127 | a found branch is the maximal word run after `## `, not starting with `HEAD` |
| LibTools.BranchNameComplete | catkin_tools_fetch/lib/tools.py:117-127 | whenever the pattern matches with run `b`, the result is `b` |
| LibTools.BranchNameOfTrackingLine | catkin_tools_fetch/lib/tools.py:117-127 | `## master...origin/master` gives `master` |
| LibTools.BranchNameOfDetachedHead | catkin_tools_fetch/lib/tools.py:117-127 | `## HEAD (no branch)` gives `None` |
| LibTools.StatusChangesIff | catkin_tools_fetch/lib/tools.py:31-42 | `has_changes` iff the output has more than one newline |
| LibTools.Clone | catkin_tools_fetch/lib/tools.py:55-71 | the name comes back unchanged; the tag is `CLONED` iff git succeeds, `EXISTS` iff it fails with "already exists", `ERROR` for any other failure |
| LibToolsDeps.FirstHit | catkin_tools_fetch/lib/tools.py:96-108 | the index of the first url the probe accepts, `None` iff it accepts none |
| LibToolsDeps.ProbeDep | catkin_tools_fetch/lib/tools.py:86-114 | found iff some candidate is reachable; the first reachable one becomes the url; otherwise the dependency is unchanged |
| LibToolsDeps.RepositoryExists | catkin_tools_fetch/lib/tools.py:74-114 | a truthy url is the only candidate, else the default urls; probes stop at the first hit, which is written into `dependency.url` |
| LibToolsDeps.MergeStep | catkin_tools_fetch/lib/tools.py:241-260 | one name: an absent name is inserted; a shared one adopts the new branch where its own is unset, and continuing requires compatible branch and url |
| LibToolsDeps.MergeOkIff | catkin_tools_fetch/lib/tools.py:239-261 | the merge succeeds iff every shared name is compatible, whatever the order |
| LibToolsDeps.MergeContents | catkin_tools_fetch/lib/tools.py:239-261 | a successful merge holds the old names and the new ones; new names carry the new entry, shared ones the adopted old entry, the rest stay |
| LibToolsDeps.UpdateDepsDict | catkin_tools_fetch/lib/tools.py:239-261 | the loop changes `base_dict` as the merge does and returns it, or `None` on the first conflict |
| LibToolsDeps.MergeEntry | catkin_tools_fetch/lib/tools.py:242-260 | one turn of the loop is `MergeStep` |
| LibDependency.Dependency.constructor | catkin_tools_fetch/lib/dependency_parser.py:20-31 | url and branch as given, `None` otherwise; no default urls |
| LibDependency.Dependency.SetDefaultUrlsIfNeeded | catkin_tools_fetch/lib/dependency_parser.py:33-43 | nothing changes for empty templates or a truthy url; otherwise `default_urls` becomes the populated templates |
| LibDependency.PopulatedFromMembers | catkin_tools_fetch/lib/dependency_parser.py:42-43 | whatever the set's iteration order, the populated urls are the filled templates |
| LibDependency.NewParser | catkin_tools_fetch/lib/dependency_parser.py:65-82 | raises `ValueError` iff some default url lacks `{package}`, naming such a url |
| LibDependency.InitDepDict | catkin_tools_fetch/lib/dependency_parser.py:189-202 | keys are the distinct names in first-occurrence order, each a fresh `Dependency(name)` |
| LibDependency.ApplyItem | catkin_tools_fetch/lib/dependency_parser.py:149-173 | one `git_url` item raises `KeyError(target)` iff it addresses an undeclared target |
| LibDependency.ExplicitPassKeepsKeys | catkin_tools_fetch/lib/dependency_parser.py:147-173 | the pass adds and removes no dependency and keeps names and default urls |
| LibDependency.ExplicitPassSucceedsIff | catkin_tools_fetch/lib/dependency_parser.py:147-173 | the pass succeeds iff every explicit item targets a declared name |
| LibDependency.ExplicitPassDefaults | catkin_tools_fetch/lib/dependency_parser.py:157-165 | the templates grow by exactly the prepared urls of the `all` items, each holding `{package}` |
| LibDependency.ExplicitPassLastWins | catkin_tools_fetch/lib/dependency_parser.py:166-172 | the url and the branch of a dependency are those of the last explicit item giving them |
| LibDependency.Parser.constructor | catkin_tools_fetch/lib/dependency_parser.py:80-82 | stores the templates and the name, with a fresh printer |
| LibDependency.Parser.GetDependencies | catkin_tools_fetch/lib/dependency_parser.py:84-109 | `None` without a `package.xml`; otherwise the names of `build_depend` then `depend`, the found-message printed, the explicit pass applied, then the defaults |
| LibDependency.Parser.UpdateExplicitValues | catkin_tools_fetch/lib/dependency_parser.py:131-177 | the explicit pass on the objects, then the default urls for every dependency; a `KeyError` leaves earlier changes |
| LibDependency.Parser.AddDefaultUrl | catkin_tools_fetch/lib/dependency_parser.py:157-165 | a truthy prepared `all` url joins the templates |
| LibDependency.Parser.ApplyOne | catkin_tools_fetch/lib/dependency_parser.py:150-173 | one item on the objects is `ApplyItem` |
| LibDependency.Parser.ApplyGitUrls | catkin_tools_fetch/lib/dependency_parser.py:147-173 | the loop is the explicit pass, stopping at the first exception |
| LibDependency.SetExplicitValues | catkin_tools_fetch/lib/dependency_parser.py:166-172 | a truthy url and a truthy branch overwrite the dependency's |
| LibDependency.ApplyDefaultUrls | catkin_tools_fetch/lib/dependency_parser.py:175-176 | every dependency gets `set_default_urls_if_needed` with the final templates |
| Manifest.FixDependencies | catkin_tools_fetch/lib/dependency_parser.py:111-129 | same length and order, each element stripped |
| Manifest.StripFixesOnlyWhitespace | catkin_tools_fetch/lib/dependency_parser.py:122-124 | stripping removes only leading and trailing whitespace (Python 3's set: ASCII and the Unicode spaces), and is the identity on a trimmed text |
| LibDownloader.NewDownloader | catkin_tools_fetch/lib/downloader.py:32-48 | raises `ValueError` iff the workspace folder is missing; stores the three arguments |
| LibDownloader.FoundAmongSpec | catkin_tools_fetch/lib/downloader.py:109-120 | a name is found iff listed, not ignored, and reachable |
| LibDownloader.CheckedContents | catkin_tools_fetch/lib/downloader.py:109-120 | with the flag tested, the kept names are, in order, exactly the reachable ones that are not ignored, each with the url it was found under |
| LibDownloader.CheckedAsWrittenContents | catkin_tools_fetch/lib/downloader.py:109-120 | as written, the kept names are, in order, every name that is not ignored, each with the dependency the probe left |
| LibDownloader.CheckDependenciesAsWritten | catkin_tools_fetch/lib/downloader.py:95-121 | as written, every name that is not ignored is kept, reachable or not |
| LibDownloader.CheckDependencies | catkin_tools_fetch/lib/downloader.py:95-121 | kept iff not ignored and reachable, with the url it was found under; ignored names are never probed; empty in, empty out |
| LibDownloader.CloneDependenciesAsWritten | catkin_tools_fetch/lib/downloader.py:64-93 | as written, `NO_ERROR` iff every checked name is available, else `TypeError` |
| LibDownloader.AnyCloneFailsSpec | catkin_tools_fetch/lib/downloader.py:78-93 | some clone fails iff a missing name's clone tag is `ERROR` |
| LibDownloader.CloneDependencies | catkin_tools_fetch/lib/downloader.py:64-93 | exactly the names not available are cloned, in order; the code is 1 iff one clone gives `ERROR_TAG`, else `NO_ERROR` |
| LibDownloader.DownloadDependenciesAsWritten | catkin_tools_fetch/lib/downloader.py:50-62 | a non-dict raises `ValueError`; as written, any new dependency raises `TypeError` |
| LibDownloader.DownloadDependencies | catkin_tools_fetch/lib/downloader.py:50-62 | a non-dict raises `ValueError`; otherwise 1 iff a reachable, unignored, missing dependency fails to clone |
| LibDownloader.WrongLinkIsKept | catkin_tools_fetch/lib/downloader.py:114 | an unreachable link is kept as written and dropped once the flag is tested |
| LibDownloader.FetchDownloadRaises | catkin_tools_fetch/lib/downloader.py:85 | one new dependency raises as written and downloads cleanly once corrected |
| LibPrinter.UpsSpec | catkin_tools_fetch/lib/printer.py:44-47 | `n` cursor-up escapes |
| LibPrinter.ActiveLinesSpec | catkin_tools_fetch/lib/printer.py:36-42 | one padded line per active message, in registry order |
| LibPrinter.Printer.constructor | catkin_tools_fetch/lib/printer.py:12-15 | an empty registry with the given line length |
| LibPrinter.Printer.AddMsg | catkin_tools_fetch/lib/printer.py:17-21 | sets `msgs[key]`, others unchanged, one padded line appended |
| LibPrinter.Printer.PrintMsg | catkin_tools_fetch/lib/printer.py:23-25 | one padded line appended, registry unchanged |
| LibPrinter.Printer.PurgeMsg | catkin_tools_fetch/lib/printer.py:27-34 | cursor-ups for the messages before removal, the key removed if present, then `last_msg` and each remaining message once |
| LibPrinter.Printer.PrintActive | catkin_tools_fetch/lib/printer.py:36-42 | optional cursor-ups, then every active message in order |
| LibPrinter.Printer.MoveUp | catkin_tools_fetch/lib/printer.py:44-47 | one cursor-up per active message |
| Strs.LJust | catkin_tools_fetch/lib/printer.py:21 | the text right-padded with spaces to `max(len, width)` |
| Strs.StripSpec | catkin_tools_fetch/lib/dependency_parser.py:124 | `strip` removes the whitespace runs at both ends, ASCII and Unicode spaces alike, and no more |
| Strs.StripUnicodeSpaces | catkin_tools_fetch/lib/dependency_parser.py:124 | a leading no-break space and a trailing ideographic space are stripped |
| Strs.CountAboveOne | catkin_tools_fetch/lib/tools.py:40 | more than one newline iff two distinct positions hold one |
| Strs.SplitJoin | catkin_tools_fetch/lib/tools.py:152 | `split(",")` loses nothing: joining gives the text back, and no piece holds a comma |
| LibUpdate.SelectedFoldersSpec | catkin_tools_fetch/lib/update.py:49-53 | a folder is selected iff its package name is in the selection |
| LibUpdate.FilterFromSpec | catkin_tools_fetch/lib/update.py:49-53 | the filtered dict holds exactly the selected folders, in order, with their packages |
| LibUpdate.FilteredContents | catkin_tools_fetch/lib/update.py:47-53 | an empty or `None` selection gives `packages` itself; any other gives exactly the selected entries |
| LibUpdate.FilterPackages | catkin_tools_fetch/lib/update.py:38-53 | the loop builds the filtered dict |
| LibUpdate.PullTag | catkin_tools_fetch/lib/update.py:71-83 | `GIT ERROR` iff the pull fails; `UP TO DATE` iff its output says "Already up-to-date"; `PULLED` otherwise |
| LibUpdate.PackageTag | catkin_tools_fetch/lib/update.py:64-83 | no tag iff `git status` fails |
| LibUpdate.RunReports | catkin_tools_fetch/lib/update.py:63-83 | one report per folder in order, up to the first failing status, whose error ends the run |
| LibUpdate.RunCompletesIff | catkin_tools_fetch/lib/update.py:63-83 | the run completes iff every status succeeds |
| LibUpdate.RunPullsClean | catkin_tools_fetch/lib/update.py:66-72 | only folders with a clean status are pulled |
| LibUpdate.UpdateOne | catkin_tools_fetch/lib/update.py:64-83 | one folder: its tag, and a pull exactly when clean |
| LibUpdate.UpdatePackages | catkin_tools_fetch/lib/update.py:55-83 | the corrected loop is `Update` |
| LibUpdate.UpdatePackagesAsWritten | catkin_tools_fetch/lib/update.py:55-65 | as written, the first successful status raises `ValueError` |
| LibUpdate.OneLineStatusIsClean | catkin_tools_fetch/lib/tools.py:38-42 | one line of status output is clean |
| LibUpdate.SingleFolderIsSelected | catkin_tools_fetch/lib/update.py:47-53 | a workspace of one selected folder is kept whole by the filter |
| LibUpdate.UnpackRaisesOnCleanCheckout | catkin_tools_fetch/lib/update.py:65 | a selected clean checkout raises `ValueError` as written |
| LibUpdate.CleanCheckoutTag | catkin_tools_fetch/lib/update.py:64-77 | a one-line status is clean, so the folder is pulled and tagged by the pull |
| LibUpdate.CleanCheckoutIsPulled | catkin_tools_fetch/lib/update.py:55-83 | once corrected, the same checkout is pulled and reported once |
| FetcherTools.SlashEnded | catkin_tools_fetch/fetcher/tools.py:34-35 | the url with a `/` appended unless it has one |
| FetcherTools.PrepareDefaultUrl | catkin_tools_fetch/fetcher/tools.py:20-40 | `''` gives `''`; any other url is a prefix of its result, after the added `/` |
| FetcherTools.PrepareDefaultUrlRules | catkin_tools_fetch/fetcher/tools.py:36-40 | `git` gives slashed + `{package}.git`; `http` gives slashed + `{package}`; anything else gives the slashed url |
| FetcherTools.PrepareDefaultUrlHasTag | catkin_tools_fetch/fetcher/tools.py:20-40 | a non-empty result holds `{package}` iff the input did or starts with `git` or `http` |
| FetcherTools.MatchesNewerForHttp | catkin_tools_fetch/fetcher/tools.py:20-40 | for an `http` url the two generations agree; for `''` they part |
| FetcherTools.Decorate | catkin_tools_fetch/fetcher/tools.py:69-71 | exactly `"[" + name + "]"`, of length `len(name)+2` |
| FetcherParser.NewParser | catkin_tools_fetch/fetcher/dependency_parser.py:30-43 | raises `ValueError` iff the mask lacks `{package}` |
| FetcherParser.InitialUrlsContents | catkin_tools_fetch/fetcher/dependency_parser.py:123-136 | every name, in first-occurrence order, mapped to the mask filled in with it, and nothing else |
| FetcherParser.InitDepDict | catkin_tools_fetch/fetcher/dependency_parser.py:123-136 | the loop builds `InitialUrls` |
| FetcherParser.ExplicitUrlsOkIff | catkin_tools_fetch/fetcher/dependency_parser.py:114-121 | the pass succeeds iff every item has both `target` and `url` |
| FetcherParser.ExplicitUrlsError | catkin_tools_fetch/fetcher/dependency_parser.py:117-119 | a failure is the `KeyError` of the attribute missing from the first incomplete item |
| FetcherParser.ExplicitUrlsLastWins | catkin_tools_fetch/fetcher/dependency_parser.py:114-121 | the url of a name is that of the last item targeting it, or its old url when none does |
| FetcherParser.ExplicitUrlsKeys | catkin_tools_fetch/fetcher/dependency_parser.py:114-121 | a name is present after the pass iff it was before or some item targets it, so undeclared targets are added |
| FetcherParser.SpecifyExplicitUrls | catkin_tools_fetch/fetcher/dependency_parser.py:103-121 | the loop over the items, on a copy of the initial dict |
| FetcherParser.GetDependencies | catkin_tools_fetch/fetcher/dependency_parser.py:45-81 | `None` without a `package.xml`; otherwise the stripped names of the `build_depend` elements only (`depend` is not read), each with the filled mask, as the `git_url` items overwrite them |
| FetcherParser.GetDependenciesContents | catkin_tools_fetch/fetcher/dependency_parser.py:45-136 | with complete items, the names are the declared and targeted ones, each with its last explicit url or the filled mask |
| FetcherDownloader.NewDownloader | catkin_tools_fetch/fetcher/downloader.py:38-54 | raises `ValueError` iff the workspace folder is missing |
| FetcherDownloader.RepositoryExists | catkin_tools_fetch/fetcher/downloader.py:143-163 | `''` is unreachable without running git; otherwise the `ls-remote` verdict |
| FetcherDownloader.ReachableSpec | catkin_tools_fetch/fetcher/downloader.py:129-140 | a name is kept iff listed, not ignored, and its url is reachable |
| FetcherDownloader.CheckDependencies | catkin_tools_fetch/fetcher/downloader.py:115-141 | exactly the reachable unignored entries, urls unchanged; git is asked only about unignored names with a non-empty url |
| FetcherDownloader.LastErrorNone | catkin_tools_fetch/fetcher/downloader.py:79-113 | no hard failure gives `NO_ERROR` |
| FetcherDownloader.LastErrorIsLastFailure | catkin_tools_fetch/fetcher/downloader.py:100-113 | the code is the return code of the last hard failure; "already exists" does not count |
| FetcherDownloader.LastErrorZeroIff | catkin_tools_fetch/fetcher/downloader.py:100-113 | with non-zero failure codes, `NO_ERROR` iff no clone fails hard |
| FetcherDownloader.CloneDependencies | catkin_tools_fetch/fetcher/downloader.py:70-113 | exactly the unavailable names are cloned, in order; the code is `LastError` |
| FetcherDownloader.DownloadDependencies | catkin_tools_fetch/fetcher/downloader.py:56-68 | a non-dict raises `ValueError`; otherwise the last hard failure among the reachable names |
| FetcherDownloader.NothingReachableIsNoError | catkin_tools_fetch/fetcher/downloader.py:78-127 | with nothing reachable nothing is checked and the code is `NO_ERROR` |
| Cli.RoundGrows | catkin_tools_fetch/cli.py:141-148 | a round only adds selected, scanned names not parsed before, and a round adding none leaves the dependencies |
| Cli.RoundParsesAllSelected | catkin_tools_fetch/cli.py:141-148 | conversely, a successful round has parsed every selected package it scanned |
| Cli.StopMeansAllParsed | catkin_tools_fetch/cli.py:140-158 | the round at which `fetch` stops (nothing new parsed) finds every selected scanned package already parsed |
| Cli.BadMaskParsesNothing | catkin_tools_fetch/cli.py:144-145 | a mask without `{package}` raises iff some selected package is not parsed yet, and parses nothing |
| Cli.MaskedRoundNeverMaskError | catkin_tools_fetch/cli.py:144-147 | a mask with the placeholder never raises the mask error |
| Cli.DefaultUrlIsMask | catkin_tools_fetch/cli.py:60-94 | the default `--default_url` prepares to a usable mask |
| Cli.ParseOne | catkin_tools_fetch/cli.py:144-147 | one selected package gives `ParsePackage`: the mask error, the `None` error, or its parsed dict |
| Cli.ParsePackages | catkin_tools_fetch/cli.py:135-148 | the inner loop is `ParseRound` |
| Cli.Fetch | catkin_tools_fetch/cli.py:109-162 | the `while(True)` loop is `FetchFrom` from round 0 |
| Cli.IgnoredCodeIsNoError | catkin_tools_fetch/cli.py:155-158 | the stopping round has nothing to download, so the code it discards is 0 |
| Cli.CleanClonesKeepCode | catkin_tools_fetch/cli.py:130-162 | when no clone fails and the folder exists, the result is the kept code |
| Cli.OnlySelectedAreParsed | catkin_tools_fetch/cli.py:121-144 | with a package list, only listed names are ever parsed |
| Cli.RunVerb | catkin_tools_fetch/cli.py:77-106 | no workspace gives 1; `--update` gives 1; `fetch` gives `fetch`'s result; any other verb gives `None` |
| UpdateFolders.GetStatusTag | catkin_tools_fetch/update/update.py:73-79 | `UP TO DATE` iff the output has "Already up-to-date"; `MERGE CONFLICT` iff only "Automatic merge failed"; `PULLED` iff neither |
| UpdateFolders.PullLevel | catkin_tools_fetch/update/update.py:28-67 | `info` iff the tag is in `OK_TAGS`, `warning` otherwise |
| UpdateFolders.OkTagsAreFinishedPulls | catkin_tools_fetch/update/update.py:28-67 | a successful pull warns iff it is a conflict |
| UpdateFolders.FolderReport | catkin_tools_fetch/update/update.py:42-70 | no report iff `git status` fails; a report names the package |
| UpdateFolders.FolderReportRules | catkin_tools_fetch/update/update.py:48-70 | `CHANGES` iff dirty; `NO BRANCH` iff clean without a branch match; for a tracked checkout the pull on its branch gives `GIT ERROR` iff it fails, else `get_status_tag` |
| UpdateFolders.RunReports | catkin_tools_fetch/update/update.py:42-70 | one report per folder in order, up to the first failing status, whose `CalledProcessError` ends the run |
| UpdateFolders.RunPullsOnlyTracked | catkin_tools_fetch/update/update.py:48-62 | only clean checkouts on a branch are pulled |
| UpdateFolders.UpdateFolder | catkin_tools_fetch/update/update.py:43-70 | one turn of the loop: its report and its pull |
| UpdateFolders.UpdateFoldersLoop | catkin_tools_fetch/update/update.py:31-70 | the loop is `Run` over the folders in dict order |
| UpdateFolders.UpToDateWins | catkin_tools_fetch/update/update.py:75-76 | "Already up-to-date" anywhere gives `UP TO DATE`, even beside a failed merge |
| UpdateFolders.MergeFailureIsConflict | catkin_tools_fetch/update/update.py:77-78 | an output like the test's, the merge-failed message with no `y` around it, cannot hold the up-to-date message and is a conflict |

## Left out

- Running git, `rospack`, `path.exists`, `os.listdir` and `minidom` is left out. They are I/O, so they are oracles or parsed inputs.
- `list_all_ros_pkgs` and `default_ros_packages` are left out; the ignore set is an input (`Env.rosPkgs`).
- The `GIT_TERMINAL_PROMPT` change of `os.environ` is left out, because it is environment I/O.
- Logging is left out, and so are termcolor colours: tags are plain strings.
- The `log_func(Tools.decorate(package.name), status_tag)` call at update/update.py:67 passes an argument without a `%s`. That is a logging formatting error, not a change of state. The model records the tag and the level.
- update/update.py imports `catkin_tools_fetch.common.tools`, which does not exist, so the module cannot be imported. The model takes `Tools.decorate` for the older `decorate` and models the function bodies.
- The `Printer`'s class-level `RLock` is left out; the printer is sequential.
- Argument parsing (`prepare_arguments`) is left out; `main` receives plain options.
- `Context.load` is left out, and `find_packages` is the per-round oracle `Env.scan`.
- Cli.Fetch: the assumption that all package names come from a finite `universe` is needed for termination. The source's loop is only as finite as the workspace.
- Cli.Fetch: `git` and `ls-remote` answer each command the same way in every round.
- Cli.Fetch: a `ValueError` from `Downloader` gives 1, as under Python 2, where `e.message` exists. Under Python 3 that line would raise `AttributeError`.
- LibToolsDeps.UpdateDepsDict: it works on the values of the `Dependency` objects, not on the objects. Every object-level version ran out of its proof budget. So the model does not capture this aliasing: the merged dict takes over the new dict's objects, and the old entry's branch is changed in place.
- LibDownloader and LibToolsDeps use the values of `Dependency` objects, for the same reason.
- The bytes/str distinction is left out: under Python 3 `output.count('\n')` of a bytes output raises. The model reads output as text.
- Unicode `\w` is modelled as ASCII letters, digits and `_`.
- Strs.Strip: it follows Python 3, where the `str()` of `__node_to_list` (lib/dependency_parser.py:216, fetcher/dependency_parser.py:150) keeps the text and `strip()` removes Python 3's Unicode whitespace. Under Python 2 that `str()` makes a byte string: a non-ASCII name raises `UnicodeEncodeError`, and `strip()` then removes only space, tab, newline, vertical tab, form feed and carriage return. The model does not capture these Python 2 behaviours.
- The code runs under Python 2 and Python 3, and the model takes one side per point. Dicts iterate in insertion order, as from Python 3.7. Under Python 2, `dep_dict`, `checked_deps`, `packages` and the printer's messages iterate in hash order, so the clone order, `probed`, the printer's reprint order and the older downloader's last-failure code may differ from the model's. Stripping and `str()` follow Python 3 (see `Strs.Strip`). Exception texts are the wording of CPython 3.3 to 3.9; from 3.10 the arity `TypeError` names `GitBridge.clone()` instead of `clone()`. Only the `e.message` of `main` follows Python 2 (see `Cli.Fetch`).
- `__node_to_list` (lib/dependency_parser.py:216, fetcher/dependency_parser.py:150) reads `s.childNodes[0]` of each element. The model does not capture two cases. An empty element such as `<depend/>` raises `IndexError` there. An element whose first child is a comment yields the comment's text. `Manifest.Document` holds one text per element, so the model covers only elements whose first child is their text.
- LibDependency.Parser: `__init__` stores the caller's `default_urls` set itself (lib/dependency_parser.py:80), so the `add` of an `all` url also grows the caller's set. The model's `defaultUrls` is a copy; no caller in the modelled code reads its set afterwards.
- `str.format` raising on stray braces is left out: filling a template replaces every `{package}` and nothing else.
- The newer parser iterates its `set` of templates in some order. The model states the result for every order (`PopulatedFrom`) and picks one in the code.
- `isinstance(dep_dict, dict)` is the argument type `DepArg` (a dict, or anything else).
- `NO_TRACK_TAG` of lib/update.py is never produced by that code, so `LibUpdate.Tag.NoTrack` is unused.
- tests/test_updater.py tests a later `Updater` API (`tag_from_output`, `CONFLICT_TAG`, `Strategy`, returned status messages), and tests/test_parser.py tests an older parser signature. The model follows the code at the cited lines, not those tests.
- For tests/test_tools.py `'' -> ''`, the newer `prepare_default_url` returns `None` (`LibTools.PrepareDefaultUrlEmpty`). Only the older variant returns `''`.

## Findings

| source | as written | input that shows it | evidently intended | confidence | as-written member | corrected member |
|---|---|---|---|---|---|---|
| catkin_tools_fetch/lib/downloader.py:114 | `elif GitBridge.repository_exists(url):` tests the returned pair `(dependency, found)`, which is always truthy | `{"fetch": Dependency("fetch", "wrong_link")}`, every probe failing: the name is kept (`LibDownloader.WrongLinkIsKept`) | keep a name only when `found` is true | not executed | LibDownloader.CheckDependenciesAsWritten | LibDownloader.CheckDependencies |
| catkin_tools_fetch/lib/downloader.py:85 | `GitBridge.clone(url, dep_path)` passes two of the three required arguments of `clone(name, url, clone_path, branch)`, so it raises `TypeError`; the `in [CLONED_TAG, EXISTS_TAG]` test also compares a pair with tags | one new reachable dependency `fetch` (`LibDownloader.FetchDownloadRaises`) | `clone(name, dep.url, dep_path, branch)` with the dependency's branch when it is set (a non-empty string), else `clone`'s default `master`, and a test of the returned tag | not executed | LibDownloader.CloneDependenciesAsWritten | LibDownloader.CloneDependencies |
| catkin_tools_fetch/lib/update.py:65 | `output, branch = GitBridge.status(folder)` unpacks the three results of `status` into two names, so it raises `ValueError` | one selected folder `.` whose status is one clean line (`LibUpdate.UnpackRaisesOnCleanCheckout`, `LibUpdate.CleanCheckoutIsPulled`) | read output, branch and `has_changes`, and pull the branch of a clean checkout | not executed | LibUpdate.UpdatePackagesAsWritten | LibUpdate.UpdatePackages |
