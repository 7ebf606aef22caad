/** The string rules of the older generation (catkin_tools_fetch/fetcher/tools.py):
    its variant of `prepare_default_url`, which always returns a string, and
    its `decorate`, which does not pad. */
module FetcherTools {
  import opened Wrappers
  import opened Strs
  import LibTools

  const PACKAGE_TAG := LibTools.PACKAGE_TAG

  /** The url with a `/` appended unless it already ends in one. */
  function SlashEnded(url: string): (r: string)
    ensures StartsWith(r, url) && EndsWith(r, "/")
    ensures EndsWith(url, "/") ==> r == url
  {
    if EndsWith(url, "/") then url else url + "/"
  }

  /** `Tools.prepare_default_url` of the older generation (lines 30-40): the
      empty url is returned as it is; any other gets a trailing `/`, then
      `{package}.git` after a `git...` url, `{package}` after an `http...` url,
      and nothing after any other. */
  function PrepareDefaultUrl(url: string): (r: string)
    ensures url == "" ==> r == ""
    ensures url != "" ==> StartsWith(r, SlashEnded(url)) && StartsWith(r, url)
  {
    if |url| == 0 then url
    else
      var u := SlashEnded(url);
      if StartsWith(u, "git") then u + PACKAGE_TAG + ".git"
      else if StartsWith(u, "http") then u + PACKAGE_TAG
      else u
  }

  /** The three suffix rules, stated on the input url. */
  lemma PrepareDefaultUrlRules(url: string)
    requires url != ""
    ensures StartsWith(url, "git") ==> PrepareDefaultUrl(url) == SlashEnded(url) + PACKAGE_TAG + ".git"
    ensures !StartsWith(url, "git") && StartsWith(url, "http") ==>
              PrepareDefaultUrl(url) == SlashEnded(url) + PACKAGE_TAG
    ensures !StartsWith(url, "git") && !StartsWith(url, "http") ==> PrepareDefaultUrl(url) == SlashEnded(url)
  {
    LibTools.StartsWithSlashed(url, "git");
    LibTools.StartsWithSlashed(url, "http");
    if StartsWith(url, "git") {
      assert SlashEnded(url)[..3] == url[..3];
    }
    if StartsWith(url, "http") {
      assert SlashEnded(url)[..4] == url[..4];
    }
  }

  /** A trailing `/` adds no placeholder. */
  lemma ContainsTagSlashed(s: string)
    ensures Contains(s + "/", PACKAGE_TAG) ==> Contains(s, PACKAGE_TAG)
  {
    if Contains(s + "/", PACKAGE_TAG) {
      var i := ContainsWitness(s + "/", PACKAGE_TAG);
      assert (s + "/")[i..i + 9][8] == '}';
      assert s[i..i + 9] == (s + "/")[i..i + 9];
      ContainsAt(s, PACKAGE_TAG, i);
    }
  }

  /** The result can serve as a download mask (it has the placeholder) exactly
      when the input had one or starts with `git` or `http`. */
  lemma PrepareDefaultUrlHasTag(url: string)
    requires url != ""
    ensures Contains(PrepareDefaultUrl(url), PACKAGE_TAG) <==>
            Contains(url, PACKAGE_TAG) || StartsWith(url, "git") || StartsWith(url, "http")
  {
    PrepareDefaultUrlRules(url);
    var u := SlashEnded(url);
    if StartsWith(url, "git") {
      ContainsInfix(u, PACKAGE_TAG, ".git");
    } else if StartsWith(url, "http") {
      ContainsInfix(u, PACKAGE_TAG, "");
      assert u + PACKAGE_TAG + "" == u + PACKAGE_TAG;
    } else if u != url {
      ContainsTagSlashed(url);
    }
    if Contains(url, PACKAGE_TAG) {
      ContainsExtend(url, PrepareDefaultUrl(url)[|url|..], PACKAGE_TAG);
      assert url + PrepareDefaultUrl(url)[|url|..] == PrepareDefaultUrl(url);
    }
  }

  /** Where the two generations meet: for an `http...` url without the
      placeholder that does not end in `.git`, the newer rule gives the same
      template. The empty url is where they part: `''` here, `None` there. */
  lemma MatchesNewerForHttp(url: string)
    requires !Contains(url, PACKAGE_TAG) && StartsWith(url, "http") && !EndsWith(url, ".git")
    ensures LibTools.PrepareDefaultUrl(url) == Some(PrepareDefaultUrl(url))
    ensures PrepareDefaultUrl("") == "" && LibTools.PrepareDefaultUrl("") == None
  {
    LibTools.PrepareDefaultUrlHttp(url);
    LibTools.PrepareDefaultUrlEmpty();
    PrepareDefaultUrlRules(url);
    assert url[0] == 'h';
    assert !StartsWith(url, "git");
    assert LibTools.Slashed(url) == SlashEnded(url);
  }

  /** `Tools.decorate` of the older generation: the name in brackets, unpadded. */
  function Decorate(pkgName: string): (r: string)
    ensures |r| == |pkgName| + 2
    ensures r[0] == '[' && r[1..|pkgName| + 1] == pkgName && r[|pkgName| + 1] == ']'
  {
    "[" + pkgName + "]"
  }
}
