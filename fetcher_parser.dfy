/** The dependency parser of the older generation
    (catkin_tools_fetch/fetcher/dependency_parser.py): it reads only the
    `<build_depend>` names of a `package.xml`, gives each the url made from the
    download mask, and lets every `<git_url target=... url=.../>` item overwrite
    (or add) the url of its target. Dependencies are plain `name -> url`
    strings here, not objects. */
module FetcherParser {
  import opened Wrappers
  import opened Strs
  import opened Dicts
  import opened Manifest
  import LibTools

  const PACKAGE_TAG := LibTools.PACKAGE_TAG

  /** A parser: its download mask and the name of the package it reads. Both
      are set once by `__init__`. */
  datatype Parser = Parser(downloadMask: string, pkgName: string)

  /** The error `__init__` raises for a mask without the placeholder. */
  const MaskError := ValueError("`download_mask` must contain a \"{package}\" placeholder.")

  /** `Parser(download_mask, pkg_name)`: refused exactly when the mask lacks
      `{package}`. */
  function NewParser(downloadMask: string, pkgName: string): (r: Result<Parser>)
    ensures r.Raised? <==> !Contains(downloadMask, PACKAGE_TAG)
    ensures r.Raised? ==> r.exc == MaskError
    ensures r.Ok? ==> r.value.downloadMask == downloadMask && r.value.pkgName == pkgName
  {
    if !Contains(downloadMask, PACKAGE_TAG) then Raised(MaskError) else Ok(Parser(downloadMask, pkgName))
  }

  // ---------------------------------------------------------------------
  // __init_dep_dict
  // ---------------------------------------------------------------------

  /** The dict `__init_dep_dict` has built once it has gone through `names`:
      each name written in turn with the mask's url for it. */
  function InitialUrls(mask: string, names: seq<string>): (d: Dict<string>)
    ensures d.Valid()
  {
    if names == [] then Empty()
    else
      var last := names[|names| - 1];
      InitialUrls(mask, names[..|names| - 1]).Put(last, LibTools.Format(mask, last))
  }

  /** Every name, in first-occurrence order, mapped to the mask filled in
      with it, and nothing else. */
  lemma {:induction false} InitialUrlsContents(mask: string, names: seq<string>)
    ensures var d := InitialUrls(mask, names);
            && d.keys == Dedup(names)
            && (forall k :: k in d.vals <==> k in names)
            && (forall k :: k in d.vals ==> d.vals[k] == LibTools.Format(mask, k))
  {
    if names != [] {
      var init := names[..|names| - 1];
      InitialUrlsContents(mask, init);
      assert forall x :: x in names <==> x in init || x == names[|names| - 1];
    }
  }

  /** `__init_dep_dict`: every name mapped to the mask filled in with it. */
  method InitDepDict(p: Parser, allDeps: seq<string>) returns (depDict: Dict<string>)
    ensures depDict == InitialUrls(p.downloadMask, allDeps)
  {
    depDict := Empty();
    var i := 0;
    while i < |allDeps|
      invariant 0 <= i <= |allDeps|
      invariant depDict == InitialUrls(p.downloadMask, allDeps[..i])
    {
      var dependency := allDeps[i];
      assert allDeps[..i + 1][..i] == allDeps[..i];
      depDict := depDict.Put(dependency, LibTools.Format(p.downloadMask, dependency));
      i := i + 1;
    }
    assert allDeps[..i] == allDeps;
  }

  // ---------------------------------------------------------------------
  // __specify_explicit_urls
  // ---------------------------------------------------------------------

  /** The loop over the `git_url` items, front to back: the `target` attribute
      is read first, then `url`; a missing one raises `KeyError`. */
  function ExplicitUrls(items: seq<GitUrlItem>, d: Dict<string>): (r: Result<Dict<string>>)
    requires d.Valid()
    ensures r.Ok? ==> r.value.Valid()
    decreases |items|
  {
    if items == [] then Ok(d)
    else if items[0].target.None? then Raised(KeyError("target"))
    else if items[0].url.None? then Raised(KeyError("url"))
    else ExplicitUrls(items[1..], d.Put(items[0].target.value, items[0].url.value))
  }

  /** The url the last item naming `k` gives, or `orig` when none names it. */
  function LastUrl(items: seq<GitUrlItem>, k: string, orig: Option<string>): Option<string>
  {
    if items == [] then orig
    else if items[|items| - 1].target == Some(k) then items[|items| - 1].url
    else LastUrl(items[..|items| - 1], k, orig)
  }

  /** `LastUrl` read front to back: the first item only sets the starting value. */
  lemma {:induction false} LastUrlCons(x: GitUrlItem, rest: seq<GitUrlItem>, k: string, orig: Option<string>)
    ensures LastUrl([x] + rest, k, orig) == LastUrl(rest, k, if x.target == Some(k) then x.url else orig)
    decreases |rest|
  {
    if rest != [] {
      assert ([x] + rest)[..|[x] + rest| - 1] == [x] + rest[..|rest| - 1];
      LastUrlCons(x, rest[..|rest| - 1], k, orig);
    } else {
      assert ([x] + rest)[..0] == [];
    }
  }

  /** What a value lookup gives: the url, or nothing for an absent key. */
  function Lookup(d: Dict<string>, k: string): Option<string>
  {
    if k in d.vals then Some(d.vals[k]) else None
  }

  /** The pass succeeds exactly when every item has both attributes. */
  lemma {:induction false} ExplicitUrlsOkIff(items: seq<GitUrlItem>, d: Dict<string>)
    requires d.Valid()
    ensures ExplicitUrls(items, d).Ok? <==> forall j :: 0 <= j < |items| ==> Complete(items[j])
    decreases |items|
  {
    if items != [] && Complete(items[0]) {
      ExplicitUrlsOkIff(items[1..], d.Put(items[0].target.value, items[0].url.value));
      assert forall j :: 1 <= j < |items| ==> items[j] == items[1..][j - 1];
    }
  }

  /** Both attributes of a `git_url` item are given. */
  predicate Complete(item: GitUrlItem)
  {
    item.target.Some? && item.url.Some?
  }

  /** The attribute whose lookup fails for an incomplete item: `target` is
      read first. */
  function MissingKey(item: GitUrlItem): string
  {
    if item.target.None? then "target" else "url"
  }

  /** A failed pass names the attribute missing from the first incomplete
      item. */
  lemma {:induction false} ExplicitUrlsError(items: seq<GitUrlItem>, d: Dict<string>)
    requires d.Valid()
    ensures ExplicitUrls(items, d).Raised? ==>
              exists j :: 0 <= j < |items| && (forall i :: 0 <= i < j ==> Complete(items[i]))
                          && !Complete(items[j]) && ExplicitUrls(items, d).exc == KeyError(MissingKey(items[j]))
    decreases |items|
  {
    if items == [] {
    } else if !Complete(items[0]) {
      assert ExplicitUrls(items, d).exc == KeyError(MissingKey(items[0]));
    } else {
      var rest := items[1..];
      var d' := d.Put(items[0].target.value, items[0].url.value);
      assert ExplicitUrls(items, d) == ExplicitUrls(rest, d');
      ExplicitUrlsError(rest, d');
      if ExplicitUrls(rest, d').Raised? {
        var j :| 0 <= j < |rest| && (forall i :: 0 <= i < j ==> Complete(rest[i]))
                 && !Complete(rest[j]) && ExplicitUrls(rest, d').exc == KeyError(MissingKey(rest[j]));
        forall i | 0 <= i < j + 1 ensures Complete(items[i]) {
          if i > 0 {
            assert items[i] == rest[i - 1];
          }
        }
        assert items[j + 1] == rest[j];
      }
    }
  }

  /** After a successful pass every name holds the url of the last item that
      targets it, or its old url when no item does. */
  lemma {:induction false} ExplicitUrlsLastWins(items: seq<GitUrlItem>, d: Dict<string>, k: string)
    requires d.Valid() && ExplicitUrls(items, d).Ok?
    ensures Lookup(ExplicitUrls(items, d).value, k) == LastUrl(items, k, Lookup(d, k))
    decreases |items|
  {
    if items != [] {
      var x := items[0];
      var d' := d.Put(x.target.value, x.url.value);
      ExplicitUrlsLastWins(items[1..], d', k);
      LastUrlCons(x, items[1..], k, Lookup(d, k));
      assert [x] + items[1..] == items;
    }
  }

  /** After a successful pass a name is present exactly when it was before or
      some item targets it. */
  lemma {:induction false} ExplicitUrlsKeys(items: seq<GitUrlItem>, d: Dict<string>, k: string)
    requires d.Valid() && ExplicitUrls(items, d).Ok?
    ensures k in ExplicitUrls(items, d).value.vals <==>
            k in d.vals || exists j :: 0 <= j < |items| && items[j].target == Some(k)
    decreases |items|
  {
    if items != [] {
      var x := items[0];
      var d' := d.Put(x.target.value, x.url.value);
      ExplicitUrlsKeys(items[1..], d', k);
      assert forall j :: 1 <= j < |items| ==> items[j] == items[1..][j - 1];
      if exists j :: 0 <= j < |items[1..]| && items[1..][j].target == Some(k) {
        var j :| 0 <= j < |items[1..]| && items[1..][j].target == Some(k);
        assert items[j + 1].target == Some(k);
      }
    }
  }

  /** `__specify_explicit_urls`: works on a copy of the initial dict (the
      caller's dict is a value here, so it cannot change). */
  method SpecifyExplicitUrls(items: seq<GitUrlItem>, initialDepDict: Dict<string>)
    returns (r: Result<Dict<string>>)
    requires initialDepDict.Valid()
    ensures r == ExplicitUrls(items, initialDepDict)
  {
    var depDict := initialDepDict;
    var i := 0;
    assert items[0..] == items;
    while i < |items|
      invariant 0 <= i <= |items| && depDict.Valid()
      invariant ExplicitUrls(items, initialDepDict) == ExplicitUrls(items[i..], depDict)
    {
      var item := items[i];
      assert items[i..][0] == item && items[i..][1..] == items[i + 1..];
      if item.target.None? {
        return Raised(KeyError("target"));
      }
      var target := item.target.value;
      if item.url.None? {
        return Raised(KeyError("url"));
      }
      var url := item.url.value;
      depDict := depDict.Put(target, url);
      i := i + 1;
    }
    assert items[i..] == [];
    return Ok(depDict);
  }

  // ---------------------------------------------------------------------
  // get_dependencies
  // ---------------------------------------------------------------------

  /** The stripped `<build_depend>` names; `<depend>` is not read. */
  function BuildNames(doc: Document): seq<string>
  {
    Fixed(doc.buildDepends)
  }

  /** `get_dependencies(folder)` on the `package.xml` of that folder, `None`
      when there is none: `Ok(None)` then, else the dict of the default urls
      as the `git_url` items have overwritten it. */
  method GetDependencies(p: Parser, doc: Option<Document>) returns (r: Result<Option<Dict<string>>>)
    ensures doc.None? ==> r == Ok(None)
    ensures doc.Some? ==>
              var e := ExplicitUrls(doc.value.gitUrls, InitialUrls(p.downloadMask, BuildNames(doc.value)));
              r == if e.Ok? then Ok(Some(e.value)) else Raised(e.exc)
  {
    if doc.None? {
      return Ok(None);
    }
    var xmldoc := doc.value;
    var allDeps := FixDependencies(xmldoc.buildDepends);
    assert allDeps == BuildNames(xmldoc);
    var depsWithUrls := InitDepDict(p, allDeps);
    var e := SpecifyExplicitUrls(xmldoc.gitUrls, depsWithUrls);
    if e.Raised? {
      return Raised(e.exc);
    }
    return Ok(Some(e.value));
  }

  /** What a parse with a well-formed export section gives: every
      `<build_depend>` name (stripped) and every target, each with the url of
      its last `git_url` item, the others with the mask filled in. */
  lemma GetDependenciesContents(p: Parser, doc: Document, k: string)
    requires forall j :: 0 <= j < |doc.gitUrls| ==> Complete(doc.gitUrls[j])
    ensures var d0 := InitialUrls(p.downloadMask, BuildNames(doc));
            var e := ExplicitUrls(doc.gitUrls, d0);
            && e.Ok?
            && (k in e.value.vals <==> k in BuildNames(doc) || exists j :: 0 <= j < |doc.gitUrls| && doc.gitUrls[j].target == Some(k))
            && Lookup(e.value, k) == LastUrl(doc.gitUrls, k, if k in BuildNames(doc) then Some(LibTools.Format(p.downloadMask, k)) else None)
  {
    var d0 := InitialUrls(p.downloadMask, BuildNames(doc));
    InitialUrlsContents(p.downloadMask, BuildNames(doc));
    ExplicitUrlsOkIff(doc.gitUrls, d0);
    ExplicitUrlsLastWins(doc.gitUrls, d0, k);
    ExplicitUrlsKeys(doc.gitUrls, d0, k);
  }
}
