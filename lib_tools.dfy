/** The string rules of `Tools` and the output classification of `GitBridge`
    in the newer generation of the tool (catkin_tools_fetch/lib/tools.py).
    Every git invocation is replaced by its outcome, passed in as a value. */
module LibTools {
  import opened Wrappers
  import opened Strs

  /** The placeholder that default urls carry for the package name. */
  const PACKAGE_TAG := "{package}"

  /** `url.format(package=name)`: every `{package}` replaced by `name`. */
  function Format(url: string, name: string): string
  {
    ReplaceAll(url, PACKAGE_TAG, name)
  }

  // ---------------------------------------------------------------------
  // Tools.prepare_default_url
  // ---------------------------------------------------------------------

  /** `url` with a `/` appended unless it already ends in `/` or `.git`. */
  function Slashed(url: string): string
  {
    if !EndsWith(url, "/") && !EndsWith(url, ".git") then url + "/" else url
  }

  /** Turns a user-supplied url into a default-url template. A url that already
      has the placeholder is kept; otherwise a `git...` url not ending in `.git`
      gets `{package}.git` and an `http...` url gets `{package}`, after a `/`
      where needed. Everything else (including `''`) yields `None`. */
  function PrepareDefaultUrl(url: string): (r: Option<string>)
    ensures r.Some? ==> Contains(r.value, PACKAGE_TAG)
    ensures Contains(url, PACKAGE_TAG) ==> r == Some(url)
  {
    if Contains(url, PACKAGE_TAG) then Some(url)
    else
      var u := Slashed(url);
      if StartsWith(u, "git") && !EndsWith(u, ".git") then
        ContainsInfix(u, PACKAGE_TAG, ".git");
        Some(u + PACKAGE_TAG + ".git")
      else if StartsWith(u, "git") && !Contains(u, PACKAGE_TAG) then
        None
      else if StartsWith(u, "http") then
        ContainsInfix(u, PACKAGE_TAG, "");
        assert u + PACKAGE_TAG + "" == u + PACKAGE_TAG;
        Some(u + PACKAGE_TAG)
      else
        None
  }

  /** A prepared url is a fixed point: preparing it again changes nothing. */
  lemma PrepareDefaultUrlIdempotent(url: string)
    requires PrepareDefaultUrl(url).Some?
    ensures PrepareDefaultUrl(PrepareDefaultUrl(url).value) == PrepareDefaultUrl(url)
  {
  }

  /** A prefix of `url + "/"` is a prefix of `url` or the whole of it. */
  lemma StartsWithSlashed(url: string, p: string)
    ensures StartsWith(url + "/", p) ==> StartsWith(url, p) || p == url + "/"
  {
    if |p| <= |url| {
      assert (url + "/")[..|p|] == url[..|p|];
    }
  }

  /** A url ending in a non-empty suffix ends in that suffix's last character. */
  lemma EndsWithLast(s: string, p: string)
    ensures EndsWith(s, p) && |p| > 0 ==> s[|s| - 1] == p[|p| - 1]
  {
    if EndsWith(s, p) && |p| > 0 {
      assert s[|s| - |p|..][|p| - 1] == s[|s| - 1];
    }
  }

  /** Appending `/` gives a url ending in `/`, hence not in `.git`. */
  lemma SlashedNotGit(url: string)
    ensures Slashed(url) != url ==> !EndsWith(Slashed(url), ".git") && EndsWith(Slashed(url), "/")
  {
    var u := url + "/";
    assert u[|u| - 1] == '/';
    EndsWithLast(u, ".git");
  }

  /** A `git...` url not ending in `.git` gets `{package}.git`. */
  lemma PrepareDefaultUrlGit(url: string)
    requires !Contains(url, PACKAGE_TAG) && StartsWith(url, "git") && !EndsWith(url, ".git")
    ensures PrepareDefaultUrl(url) == Some(Slashed(url) + PACKAGE_TAG + ".git")
  {
    SlashedShape(url);
  }

  /** A `git...` url ending in `.git` without placeholder is rejected. */
  lemma PrepareDefaultUrlGitSuffix(url: string)
    requires !Contains(url, PACKAGE_TAG) && StartsWith(url, "git") && EndsWith(url, ".git")
    ensures PrepareDefaultUrl(url) == None
  {
    SlashedShape(url);
  }

  /** An `http...` url gets `{package}` after a `/` where needed. */
  lemma PrepareDefaultUrlHttp(url: string)
    requires !Contains(url, PACKAGE_TAG) && StartsWith(url, "http")
    ensures PrepareDefaultUrl(url) == Some(Slashed(url) + PACKAGE_TAG)
  {
    SlashedShape(url);
    assert url[0] == 'h';
  }

  /** Any other url without placeholder is rejected. */
  lemma PrepareDefaultUrlOther(url: string)
    requires !Contains(url, PACKAGE_TAG) && !StartsWith(url, "git") && !StartsWith(url, "http")
    ensures PrepareDefaultUrl(url) == None
  {
    SlashedShape(url);
  }

  /** How `Slashed` relates the prefixes and the `.git` suffix of a url. */
  lemma SlashedShape(url: string)
    ensures StartsWith(Slashed(url), "git") <==> StartsWith(url, "git")
    ensures StartsWith(Slashed(url), "http") <==> StartsWith(url, "http")
    ensures EndsWith(Slashed(url), ".git") <==> EndsWith(url, ".git")
    ensures EndsWith(url, ".git") ==> Slashed(url) == url
  {
    var u := Slashed(url);
    SlashedNotGit(url);
    if u != url {
      assert u == url + "/";
      StartsWithSlashed(url, "git");
      StartsWithSlashed(url, "http");
      assert (url + "/")[|url|] == '/';
      if StartsWith(url, "git") { assert u[..3] == url[..3]; }
      if StartsWith(url, "http") { assert u[..4] == url[..4]; }
    }
  }

  /** The empty url is rejected (the code returns `None`, not `''`). */
  lemma PrepareDefaultUrlEmpty()
    ensures PrepareDefaultUrl("") == None
  {
    assert !Contains("", PACKAGE_TAG);
    assert Slashed("") == "/";
    assert !StartsWith("/", "git") && !StartsWith("/", "http");
  }

  // ---------------------------------------------------------------------
  // Tools.prepare_default_urls
  // ---------------------------------------------------------------------

  /** The template one comma-separated piece contributes: its prepared form,
      when that is a non-empty url. */
  function PreparedOne(piece: string): set<string>
  {
    var r := PrepareDefaultUrl(piece);
    if r.Some? && r.value != "" then {r.value} else {}
  }

  /** The templates a sequence of pieces contributes. */
  function PreparedSet(pieces: seq<string>): set<string>
  {
    if pieces == [] then {}
    else PreparedSet(pieces[..|pieces| - 1]) + PreparedOne(pieces[|pieces| - 1])
  }

  /** A template is in the set exactly when some piece prepares to it. */
  lemma {:induction false} PreparedSetSpec(pieces: seq<string>)
    ensures forall u :: u in PreparedSet(pieces) <==>
              exists p :: p in pieces && PrepareDefaultUrl(p) == Some(u) && u != ""
  {
    if pieces != [] {
      var init := pieces[..|pieces| - 1];
      var last := pieces[|pieces| - 1];
      PreparedSetSpec(init);
      assert forall p :: p in pieces <==> p in init || p == last;
    }
  }

  /** `prepare_default_urls`: splits a comma-separated list of urls, prepares
      every piece, and keeps the truthy results in a set. */
  method PrepareDefaultUrls(defaultUrls: string) returns (prepared: set<string>)
    ensures forall u :: u in prepared <==>
              exists p :: p in Split(defaultUrls, ',') && PrepareDefaultUrl(p) == Some(u) && u != ""
    ensures forall u :: u in prepared ==> Contains(u, PACKAGE_TAG)
  {
    var allUrls := Split(defaultUrls, ',');
    prepared := {};
    var i := 0;
    while i < |allUrls|
      invariant 0 <= i <= |allUrls|
      invariant prepared == PreparedSet(allUrls[..i])
    {
      var preparedUrl := PrepareDefaultUrl(allUrls[i]);
      if preparedUrl.Some? && preparedUrl.value != "" {
        prepared := prepared + {preparedUrl.value};
      }
      assert allUrls[..i + 1][..i] == allUrls[..i];
      i := i + 1;
    }
    assert allUrls[..i] == allUrls;
    PreparedSetSpec(allUrls);
  }

  // ---------------------------------------------------------------------
  // Tools.populate_urls_with_name
  // ---------------------------------------------------------------------

  /** The urls that carry the placeholder, in order, each filled with `name`. */
  function Populated(urls: seq<string>, name: string): seq<string>
  {
    if urls == [] then []
    else (if Contains(urls[0], PACKAGE_TAG) then [Format(urls[0], name)] else [])
         + Populated(urls[1..], name)
  }

  /** Populating distributes over concatenation: the order of the input is kept. */
  lemma {:induction false} PopulatedConcat(a: seq<string>, b: seq<string>, name: string)
    ensures Populated(a + b, name) == Populated(a, name) + Populated(b, name)
  {
    if a == [] {
      assert a + b == b;
    } else {
      assert (a + b)[0] == a[0];
      assert (a + b)[1..] == a[1..] + b;
      PopulatedConcat(a[1..], b, name);
    }
  }

  /** A populated url comes from a url with the placeholder, and every such url
      contributes its filled-in form. */
  lemma {:induction false} PopulatedMembers(urls: seq<string>, name: string)
    ensures forall x :: x in Populated(urls, name) <==>
              exists u :: u in urls && Contains(u, PACKAGE_TAG) && Format(u, name) == x
  {
    if urls != [] {
      PopulatedMembers(urls[1..], name);
      forall x | x in Populated(urls, name)
        ensures exists u :: u in urls && Contains(u, PACKAGE_TAG) && Format(u, name) == x
      {
        if x !in Populated(urls[1..], name) {
          assert Contains(urls[0], PACKAGE_TAG) && Format(urls[0], name) == x;
        }
      }
      forall x | exists u :: u in urls && Contains(u, PACKAGE_TAG) && Format(u, name) == x
        ensures x in Populated(urls, name)
      {
        var u :| u in urls && Contains(u, PACKAGE_TAG) && Format(u, name) == x;
        if u != urls[0] {
          assert u in urls[1..];
        }
      }
    }
  }

  /** Fills `name` into every url that has the placeholder, keeping their order
      and skipping (with an error log) the urls without it. */
  method PopulateUrlsWithName(urls: seq<string>, pkgName: string) returns (populated: seq<string>)
    ensures populated == Populated(urls, pkgName)
  {
    populated := [];
    var i := 0;
    while i < |urls|
      invariant 0 <= i <= |urls|
      invariant populated == Populated(urls[..i], pkgName)
    {
      assert urls[..i + 1] == urls[..i] + [urls[i]];
      PopulatedConcat(urls[..i], [urls[i]], pkgName);
      if Contains(urls[i], PACKAGE_TAG) {
        populated := populated + [Format(urls[i], pkgName)];
      }
      i := i + 1;
    }
    assert urls[..i] == urls;
  }

  // ---------------------------------------------------------------------
  // Tools.decorate
  // ---------------------------------------------------------------------

  /** The package name in brackets, left-justified to `maxWidth` (25 by default). */
  function Decorate(pkgName: string, maxWidth: int := 25): (r: string)
    ensures |r| == if maxWidth > |pkgName| + 2 then maxWidth else |pkgName| + 2
    ensures r[0] == '[' && r[1..|pkgName| + 1] == pkgName && r[|pkgName| + 1] == ']'
    ensures forall i :: |pkgName| + 2 <= i < |r| ==> r[i] == ' '
  {
    var decorated := "[" + pkgName + "]";
    assert |decorated| == |pkgName| + 2 && decorated[0] == '[' && decorated[|pkgName| + 1] == ']';
    assert decorated[1..|pkgName| + 1] == pkgName;
    var r := LJust(decorated, maxWidth);
    assert r[1..|pkgName| + 1] == r[..|decorated|][1..|pkgName| + 1];
    r
  }

  // ---------------------------------------------------------------------
  // GitBridge: the branch pattern and the status / clone classification
  // ---------------------------------------------------------------------

  /** `[\w\-_]` restricted to ASCII. */
  predicate IsWordChar(c: char)
  {
    ('a' <= c <= 'z') || ('A' <= c <= 'Z') || ('0' <= c <= '9') || c == '_' || c == '-'
  }

  predicate AllWord(s: string)
  {
    forall i :: 0 <= i < |s| ==> IsWordChar(s[i])
  }

  /** The longest prefix of `s` made of word characters (greedy `+`). */
  function WordRun(s: string): (r: string)
    ensures |r| <= |s| && r == s[..|r|] && AllWord(r)
    ensures |r| == |s| || !IsWordChar(s[|r|])
  {
    if |s| > 0 && IsWordChar(s[0]) then [s[0]] + WordRun(s[1..]) else ""
  }

  /** A run of word characters at the front of `s` that cannot be extended is
      the one `WordRun` finds. */
  lemma {:induction false} WordRunUnique(s: string, b: string)
    requires |b| <= |s| && b == s[..|b|] && AllWord(b)
    requires |b| == |s| || !IsWordChar(s[|b|])
    ensures WordRun(s) == b
  {
    if |b| > 0 {
      assert s[1..][..|b| - 1] == b[1..];
      if |b| < |s| { assert s[1..][|b| - 1] == s[|b|]; }
      WordRunUnique(s[1..], b[1..]);
      assert b == [b[0]] + b[1..];
    } else if |s| > 0 {
      assert !IsWordChar(s[0]);
    }
  }

  /** `b` is what `## (?!HEAD)([\w\-_]+)` captures when matched at the start of
      `output`. */
  predicate IsBranchMatch(output: string, b: string)
  {
    && |b| > 0 && AllWord(b)
    && StartsWith(output, "## " + b)
    && (|output| == 3 + |b| || !IsWordChar(output[3 + |b|]))
    && !StartsWith(b, "HEAD")
  }

  /** GitBridge.get_branch_name: the branch named on the first line of
      `git status --porcelain --branch`, or `None` (detached HEAD, no match). */
  function GetBranchName(gitStatusOutput: string): (r: Option<string>)
    ensures r.Some? ==> IsBranchMatch(gitStatusOutput, r.value)
  {
    if StartsWith(gitStatusOutput, "## ") && !StartsWith(gitStatusOutput[3..], "HEAD") then
      var rest := gitStatusOutput[3..];
      var w := WordRun(rest);
      if |w| > 0 then
        assert gitStatusOutput[..3 + |w|] == "## " + w;
        assert !StartsWith(w, "HEAD") by {
          if |w| >= 4 { assert w[..4] == rest[..4]; }
        }
        Some(w)
      else None
    else None
  }

  /** Conversely, whenever the pattern matches, its capture is returned; so
      `None` means the pattern does not match. */
  lemma BranchNameComplete(output: string, b: string)
    requires IsBranchMatch(output, b)
    ensures GetBranchName(output) == Some(b)
  {
    var rest := output[3..];
    assert output[..3 + |b|] == "## " + b;
    assert rest[..|b|] == output[..3 + |b|][3..];
    assert rest[..|b|] == b;
    if |b| < |rest| { assert rest[|b|] == output[3 + |b|]; }
    WordRunUnique(rest, b);
    assert forall i :: 0 <= i < 4 ==> IsWordChar("HEAD"[i]);
    if |b| >= 4 {
      assert rest[..4] == b[..4];
    } else if |rest| >= 4 {
      assert rest[..4][|b|] == rest[|b|];
    }
  }

  /** The clean-checkout output from the test suite names branch `master`. */
  lemma BranchNameOfTrackingLine()
    ensures GetBranchName("## master...origin/master\n") == Some("master")
  {
    var out := "## master...origin/master\n";
    assert IsBranchMatch(out, "master") by {
      assert out[..9] == "## master";
      assert out[9] == '.';
      assert "master"[0] == 'm';
    }
    BranchNameComplete(out, "master");
  }

  /** A detached HEAD yields no branch. */
  lemma BranchNameOfDetachedHead()
    ensures GetBranchName("## HEAD (no branch)\n") == None
  {
    var out := "## HEAD (no branch)\n";
    assert out[3..][..4] == "HEAD";
  }

  /** What GitBridge.status returns: the raw output, the branch, and whether the
      tree has changes. */
  datatype StatusResult = StatusResult(output: string, branch: Option<string>, hasChanges: bool)

  /** GitBridge.status, given the output of `git status --porcelain --branch`:
      a clean tree prints only the branch line, so more than one newline means
      there are changes. */
  function Status(output: string): (r: StatusResult)
    ensures r.output == output && r.branch == GetBranchName(output)
  {
    StatusResult(output, GetBranchName(output), CountChar(output, '\n') > 1)
  }

  /** The tree has changes exactly when the output holds two newlines. */
  lemma StatusChangesIff(output: string)
    ensures Status(output).hasChanges <==>
            exists i, j :: 0 <= i < j < |output| && output[i] == '\n' && output[j] == '\n'
  {
    CountAboveOne(output, '\n');
  }

  /** `STATUS_CMD`, run inside the repository folder. */
  const STATUS_CMD := "git status --porcelain --branch"

  /** `PULL_CMD_MASK.format(branch=branch)`. */
  function PullCommand(branch: string): string
  {
    "git pull origin " + branch
  }

  /** The outcome of running a git command: exit status zero, or the
      `CalledProcessError` with the captured output and return code. */
  datatype GitRun = Succeeded(output: string) | Failed(output: string, returncode: int)

  const EXISTS_TAG := "[ALREADY EXISTS]"
  const ERROR_TAG := "[ERROR]"
  /** `CLONED_TAG` before `.format(branch=...)` is applied. */
  const CLONED_TAG_MASK := "[CLONED] [BRANCH: '{branch}']"

  function ClonedTag(branch: string): string
  {
    "[CLONED] [BRANCH: '" + branch + "']"
  }

  /** GitBridge.clone, given the outcome of `git clone --recursive --branch ...`:
      success reports the branch, a failure mentioning "already exists" is not an
      error, every other failure is. The name is handed back unchanged. */
  function Clone(name: string, branch: string, run: GitRun): (r: (string, string))
    ensures r.0 == name
    ensures r.1 == ClonedTag(branch) <==> run.Succeeded?
    ensures r.1 == EXISTS_TAG <==> run.Failed? && Contains(run.output, "already exists")
    ensures r.1 == ERROR_TAG <==> run.Failed? && !Contains(run.output, "already exists")
  {
    assert ClonedTag(branch)[1] == 'C' && EXISTS_TAG[1] == 'A' && ERROR_TAG[1] == 'E';
    match run
    case Succeeded(_) => (name, ClonedTag(branch))
    case Failed(out, _) => if Contains(out, "already exists") then (name, EXISTS_TAG) else (name, ERROR_TAG)
  }
}
