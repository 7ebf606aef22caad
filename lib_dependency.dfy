/** `Dependency` and the manifest `Parser` of the newer generation
    (catkin_tools_fetch/lib/dependency_parser.py). The parser turns the
    dependency names of a `package.xml` into `Dependency` objects and then
    applies the explicit `<git_url>` values and the default urls to them in
    place. Finding and parsing the XML file is replaced by an already-parsed
    `Document`, or `None` when the folder has no `package.xml`. */
module LibDependency {
  import opened Wrappers
  import opened Strs
  import opened Dicts
  import opened Manifest
  import opened LibTools
  import LibPrinter

  /** The observable state of one `Dependency`. */
  datatype DepValue = DepValue(name: string, url: Option<string>, branch: Option<string>,
                               defaultUrls: seq<string>)

  /** `got` is what populating the set `urls` with `name` yields for one of the
      possible iteration orders of the set. */
  ghost predicate PopulatedFrom(got: seq<string>, urls: set<string>, name: string)
  {
    exists order :: IsEnumeration(order, urls) && got == Populated(order, name)
  }

  /** Whatever the iteration order, the populated urls are exactly the
      templates of `urls` filled with `name`. */
  lemma PopulatedFromMembers(got: seq<string>, urls: set<string>, name: string)
    requires PopulatedFrom(got, urls, name)
    ensures forall x :: x in got <==>
              exists u :: u in urls && Contains(u, PACKAGE_TAG) && Format(u, name) == x
  {
    var order :| IsEnumeration(order, urls) && got == Populated(order, name);
    PopulatedMembers(order, name);
  }

  /** What `set_default_urls_if_needed(urls)` does to a dependency: nothing when
      `urls` is empty or an explicit url is set, otherwise `default_urls`
      becomes the populated templates. Name, url and branch never change. */
  ghost predicate DefaultsApplied(before: DepValue, after: DepValue, urls: set<string>)
  {
    && after.name == before.name && after.url == before.url && after.branch == before.branch
    && if urls == {} || Truthy(before.url) then after.defaultUrls == before.defaultUrls
       else PopulatedFrom(after.defaultUrls, urls, before.name)
  }

  class Dependency {
    var name: string
    var url: Option<string>
    var branch: Option<string>
    /** `default_urls`: an empty set at first, the populated list afterwards. */
    var defaultUrls: seq<string>

    /** A dependency with the given url and branch (`None` unless given) and
        no default urls. */
    constructor (name: string, url: Option<string> := None, branch: Option<string> := None)
      ensures Value() == DepValue(name, url, branch, [])
    {
      this.name := name;
      this.url := url;
      this.branch := branch;
      defaultUrls := [];
    }

    function Value(): DepValue
      reads this
    {
      DepValue(name, url, branch, defaultUrls)
    }

    method SetDefaultUrlsIfNeeded(urls: set<string>)
      modifies this
      ensures DefaultsApplied(old(Value()), Value(), urls)
    {
      if urls == {} {
        return;
      }
      if Truthy(url) {
        return;
      }
      var order := Enumerate(urls);
      defaultUrls := PopulateUrlsWithName(order, name);
    }
  }

  /** The dependency objects held by a dict. */
  function DepObjects(d: Dict<Dependency>): set<Dependency>
  {
    set k | k in d.vals :: d.vals[k]
  }

  /** Every key holds its own object (updating one entry leaves the others). */
  ghost predicate Distinct(d: Dict<Dependency>)
  {
    forall k1, k2 :: k1 in d.vals && k2 in d.vals && k1 != k2 ==> d.vals[k1] != d.vals[k2]
  }

  /** The dict as values. */
  function View(d: Dict<Dependency>): map<string, DepValue>
    reads DepObjects(d)
  {
    map k | k in d.vals :: d.vals[k].Value()
  }

  // ---------------------------------------------------------------------
  // The explicit-values pass, on values
  // ---------------------------------------------------------------------

  /** The dependencies, and the parser's set of default-url templates. */
  datatype PassState = PassState(deps: map<string, DepValue>, defaults: set<string>)

  /** The state reached, and the exception that stopped the pass, if any. */
  datatype PassOutcome = PassOutcome(state: PassState, failure: Option<Exc>)

  /** An item with `target="all"` and a url: it adds a default url. */
  predicate IsDefaultItem(item: GitUrlItem)
  {
    Truthy(item.target) && Truthy(item.url) && item.target.value == "all"
  }

  /** An item that addresses `dep_dict[target]` directly. */
  predicate IsExplicit(item: GitUrlItem)
  {
    Truthy(item.target) && !IsDefaultItem(item)
  }

  /** The default url an `all` item contributes, if its url can be prepared. */
  function DefaultOf(item: GitUrlItem): set<string>
  {
    if IsDefaultItem(item) then
      var prepared := PrepareDefaultUrl(item.url.value);
      if prepared.Some? && prepared.value != "" then {prepared.value} else {}
    else {}
  }

  /** One iteration of the `git_url` loop: items without target are skipped, an
      `all` item with a url extends the defaults, and any other item sets url
      and branch (when given) of `dep_dict[target]`, raising `KeyError` when
      the target is not a declared dependency. The dict lookup at line 173 is
      evaluated even when neither url nor branch is given. */
  function ApplyItem(item: GitUrlItem, s: PassState): (r: Result<PassState>)
    ensures r.Raised? <==> IsExplicit(item) && item.target.value !in s.deps
    ensures r.Raised? ==> r.exc == KeyError(item.target.value)
  {
    if !Truthy(item.target) then Ok(s)
    else if IsDefaultItem(item) then Ok(s.(defaults := s.defaults + DefaultOf(item)))
    else if item.target.value !in s.deps then Raised(KeyError(item.target.value))
    else
      var t := item.target.value;
      var withUrl := if Truthy(item.url) then s.deps[t].(url := item.url) else s.deps[t];
      var withBranch := if Truthy(item.branch) then withUrl.(branch := item.branch) else withUrl;
      Ok(s.(deps := s.deps[t := withBranch]))
  }

  /** The items applied in document order, stopping at the first exception. */
  function ExplicitPass(items: seq<GitUrlItem>, s: PassState): PassOutcome
    decreases |items|
  {
    if items == [] then PassOutcome(s, None)
    else match ApplyItem(items[0], s)
      case Raised(e) => PassOutcome(s, Some(e))
      case Ok(s1) => ExplicitPass(items[1..], s1)
  }

  /** The pass adds no dependency and removes none, and never changes a
      name or the default urls of a dependency. */
  lemma {:induction false} ExplicitPassKeepsKeys(items: seq<GitUrlItem>, s: PassState)
    ensures ExplicitPass(items, s).state.deps.Keys == s.deps.Keys
    ensures forall k :: k in s.deps ==>
              && ExplicitPass(items, s).state.deps[k].name == s.deps[k].name
              && ExplicitPass(items, s).state.deps[k].defaultUrls == s.deps[k].defaultUrls
    decreases |items|
  {
    if items != [] {
      match ApplyItem(items[0], s)
      case Raised(_) =>
      case Ok(s1) =>
        ExplicitPassKeepsKeys(items[1..], s1);
    }
  }

  /** The pass succeeds exactly when every explicit item names a declared
      dependency. */
  lemma {:induction false} ExplicitPassSucceedsIff(items: seq<GitUrlItem>, s: PassState)
    ensures ExplicitPass(items, s).failure.None? <==>
            forall i :: 0 <= i < |items| && IsExplicit(items[i]) ==> items[i].target.value in s.deps
    decreases |items|
  {
    if items != [] {
      match ApplyItem(items[0], s)
      case Raised(_) =>
      case Ok(s1) =>
        assert s1.deps.Keys == s.deps.Keys;
        ExplicitPassSucceedsIff(items[1..], s1);
        assert forall i :: 1 <= i < |items| ==> items[i] == items[1..][i - 1];
    }
  }

  /** The templates the `all` items of `items` contribute. */
  function DefaultsOf(items: seq<GitUrlItem>): set<string>
  {
    if items == [] then {} else DefaultOf(items[0]) + DefaultsOf(items[1..])
  }

  /** A successful pass extends the defaults by exactly the templates of the
      `all` items, each of which carries the placeholder. */
  lemma {:induction false} ExplicitPassDefaults(items: seq<GitUrlItem>, s: PassState)
    requires ExplicitPass(items, s).failure.None?
    ensures ExplicitPass(items, s).state.defaults == s.defaults + DefaultsOf(items)
    ensures forall u :: u in DefaultsOf(items) ==> Contains(u, PACKAGE_TAG)
    decreases |items|
  {
    if items != [] {
      match ApplyItem(items[0], s)
      case Ok(s1) =>
        ExplicitPassDefaults(items[1..], s1);
    }
  }

  /** The two attributes an explicit item can set. */
  datatype Attr = UrlAttr | BranchAttr

  function Given(item: GitUrlItem, a: Attr): Option<string>
  {
    match a
    case UrlAttr => item.url
    case BranchAttr => item.branch
  }

  function Get(d: DepValue, a: Attr): Option<string>
  {
    match a
    case UrlAttr => d.url
    case BranchAttr => d.branch
  }

  /** Reference definition: the value of attribute `a` given by the LAST
      explicit item that targets `k` and gives that attribute, or `orig`. */
  function LastGiven(items: seq<GitUrlItem>, k: string, a: Attr, orig: Option<string>): Option<string>
  {
    if items == [] then orig
    else
      var last := items[|items| - 1];
      if IsExplicit(last) && last.target.value == k && Truthy(Given(last, a)) then Given(last, a)
      else LastGiven(items[..|items| - 1], k, a, orig)
  }

  /** `LastGiven` read front to back: the first item only sets the starting
      value for the rest. */
  lemma {:induction false} LastGivenCons(x: GitUrlItem, rest: seq<GitUrlItem>, k: string, a: Attr, orig: Option<string>)
    ensures LastGiven([x] + rest, k, a, orig) == LastGiven(rest, k, a, LastGiven([x], k, a, orig))
    decreases |rest|
  {
    if rest == [] {
      assert [x] + rest == [x];
    } else {
      var xs := [x] + rest;
      assert xs[..|xs| - 1] == [x] + rest[..|rest| - 1];
      assert xs[|xs| - 1] == rest[|rest| - 1];
      LastGivenCons(x, rest[..|rest| - 1], k, a, orig);
    }
  }

  /** Later items win: after a successful pass, the url and the branch of every
      dependency are those of the last explicit item that gives them. */
  lemma {:induction false} ExplicitPassLastWins(items: seq<GitUrlItem>, s: PassState, k: string, a: Attr)
    requires ExplicitPass(items, s).failure.None? && k in s.deps
    ensures k in ExplicitPass(items, s).state.deps
    ensures Get(ExplicitPass(items, s).state.deps[k], a) == LastGiven(items, k, a, Get(s.deps[k], a))
    decreases |items|
  {
    ExplicitPassKeepsKeys(items, s);
    if items != [] {
      match ApplyItem(items[0], s)
      case Ok(s1) =>
        ExplicitPassLastWins(items[1..], s1, k, a);
        LastGivenCons(items[0], items[1..], k, a, Get(s.deps[k], a));
        assert [items[0]] + items[1..] == items;
        assert [items[0]][..0] == [];
    }
  }

  /** The dependencies `__init_dep_dict` creates for `names`: one fresh
      `Dependency(name)` per distinct name. */
  function InitialValues(names: seq<string>): map<string, DepValue>
  {
    map k | k in names :: DepValue(k, None, None, [])
  }

  /** The names `get_dependencies` declares: the stripped `build_depend` texts,
      then the stripped `depend` texts. */
  function DeclaredNames(doc: Document): seq<string>
  {
    Fixed(doc.buildDepends) + Fixed(doc.depends)
  }

  /** The line the parser prints once it has collected the names. */
  function FoundMsg(pkgName: string, count: nat): string
  {
    " " + Decorate(pkgName) + ": Found " + NatToString(count) + " valid dependencies"
  }

  /** `__init_dep_dict`: a fresh `Dependency(name)` per name, a repeated name
      replacing the object made for it before; keys in first-occurrence order. */
  method InitDepDict(allDeps: seq<string>) returns (depDict: Dict<Dependency>)
    ensures depDict.Valid() && Distinct(depDict)
    ensures depDict.keys == Dedup(allDeps)
    ensures forall k :: k in depDict.vals ==> fresh(depDict.vals[k])
    ensures View(depDict) == InitialValues(allDeps)
  {
    depDict := Empty();
    var i := 0;
    while i < |allDeps|
      invariant 0 <= i <= |allDeps|
      invariant depDict.Valid() && Distinct(depDict)
      invariant depDict.keys == Dedup(allDeps[..i])
      invariant forall k :: k in depDict.vals ==> fresh(depDict.vals[k])
      invariant forall k :: k in depDict.vals <==> k in allDeps[..i]
      invariant forall k :: k in depDict.vals ==> depDict.vals[k].Value() == DepValue(k, None, None, [])
    {
      var depName := allDeps[i];
      var dependency := new Dependency(depName);
      assert allDeps[..i + 1][..i] == allDeps[..i];
      assert forall x :: x in allDeps[..i + 1] <==> x in allDeps[..i] || x == depName;
      depDict := depDict.Put(depName, dependency);
      i := i + 1;
    }
    assert allDeps[..i] == allDeps;
    assert View(depDict) == InitialValues(allDeps);
  }

  /** The error `Parser.__init__` raises for a template without placeholder. */
  function DefaultUrlError(url: string): Exc
  {
    ValueError("Default url: '" + url + "' must contain: '" + PACKAGE_TAG + "'")
  }

  class Parser {
    /** `self.default_urls`: the set of url templates, grown by `all` items. */
    var defaultUrls: set<string>
    const pkgName: string
    const printer: LibPrinter.Printer

    /** The part of `__init__` after the sanity check. */
    constructor (defaultUrls: set<string>, pkgName: string)
      ensures this.defaultUrls == defaultUrls && this.pkgName == pkgName
      ensures fresh(printer) && printer.Valid() && printer.msgs == Empty() && printer.out == []
      ensures printer.lineLength == 70
    {
      this.defaultUrls := defaultUrls;
      this.pkgName := pkgName;
      printer := new LibPrinter.Printer();
    }

    /** `get_dependencies`: `Ok(None)` without a `package.xml`; otherwise prints
        how many names were found, builds the dict and applies the explicit
        values, which can raise `KeyError`. */
    method GetDependencies(doc: Option<Document>) returns (r: Result<Option<Dict<Dependency>>>)
      requires printer.Valid()
      modifies this, printer
      ensures printer.Valid() && printer.msgs == old(printer.msgs)
      ensures doc.None? ==> r == Ok(None) && defaultUrls == old(defaultUrls) && printer.out == old(printer.out)
      ensures doc.Some? ==>
                printer.out == old(printer.out) +
                  [LibPrinter.Line(LJust(FoundMsg(pkgName, |DeclaredNames(doc.value)|), printer.lineLength))]
      ensures doc.Some? ==>
                var o := ExplicitPass(doc.value.gitUrls,
                                      PassState(InitialValues(DeclaredNames(doc.value)), old(defaultUrls)));
                && defaultUrls == o.state.defaults
                && (o.failure.Some? ==> r == Raised(o.failure.value))
                && (o.failure.None? ==>
                      && r.Ok? && r.value.Some?
                      && r.value.value.Valid() && r.value.value.keys == Dedup(DeclaredNames(doc.value))
                      && (forall k :: k in r.value.value.vals ==>
                            && fresh(r.value.value.vals[k])
                            && k in o.state.deps
                            && DefaultsApplied(o.state.deps[k], r.value.value.vals[k].Value(), defaultUrls)))
    {
      if doc.None? {
        return Ok(None);
      }
      var xmldoc := doc.value;
      var buildDeps := FixDependencies(xmldoc.buildDepends);
      var deps := FixDependencies(xmldoc.depends);
      var allDeps := buildDeps + deps;
      assert allDeps == DeclaredNames(xmldoc);
      printer.PrintMsg(FoundMsg(pkgName, |allDeps|));
      var depsWithUrls := InitDepDict(allDeps);
      var updated := UpdateExplicitValues(xmldoc.gitUrls, depsWithUrls);
      ExplicitPassKeepsKeys(xmldoc.gitUrls, PassState(InitialValues(allDeps), old(defaultUrls)));
      if updated.Raised? {
        return Raised(updated.exc);
      }
      return Ok(Some(updated.value));
    }

    /** `__update_explicit_values`: runs the `git_url` items over the dict,
        then gives every dependency the default urls it needs. An exception
        leaves the changes made by the earlier items in place. */
    method UpdateExplicitValues(items: seq<GitUrlItem>, depDict: Dict<Dependency>)
      returns (r: Result<Dict<Dependency>>)
      requires depDict.Valid() && Distinct(depDict)
      modifies this, DepObjects(depDict)
      ensures var o := ExplicitPass(items, PassState(old(View(depDict)), old(defaultUrls)));
              && defaultUrls == o.state.defaults
              && (o.failure.Some? ==> r == Raised(o.failure.value) && View(depDict) == o.state.deps)
              && (o.failure.None? ==>
                    && r == Ok(depDict)
                    && forall k :: k in depDict.vals && k in o.state.deps ==>
                         DefaultsApplied(o.state.deps[k], depDict.vals[k].Value(), defaultUrls))
    {
      var failure := ApplyGitUrls(items, depDict);
      if failure.Some? {
        return Raised(failure.value);
      }
      ExplicitPassKeepsKeys(items, PassState(old(View(depDict)), old(defaultUrls)));
      ApplyDefaultUrls(depDict, defaultUrls);
      return Ok(depDict);
    }

    /** Lines 159-163: the prepared form of an `all` url joins the templates
        when it is truthy. */
    method AddDefaultUrl(item: GitUrlItem)
      requires IsDefaultItem(item)
      modifies this
      ensures defaultUrls == old(defaultUrls) + DefaultOf(item)
    {
      var preparedUrl := PrepareDefaultUrl(item.url.value);
      if preparedUrl.Some? && preparedUrl.value != "" {
        defaultUrls := defaultUrls + {preparedUrl.value};
      }
    }

    /** One iteration of the `git_url` loop (lines 150-173), as `ApplyItem`
        describes it; `Some(e)` when it raises `e`. */
    method ApplyOne(item: GitUrlItem, depDict: Dict<Dependency>) returns (failure: Option<Exc>)
      requires depDict.Valid() && Distinct(depDict)
      modifies this, DepObjects(depDict)
      ensures match ApplyItem(item, PassState(old(View(depDict)), old(defaultUrls)))
              case Raised(e) =>
                failure == Some(e) && View(depDict) == old(View(depDict)) && defaultUrls == old(defaultUrls)
              case Ok(s1) =>
                failure == None && View(depDict) == s1.deps && defaultUrls == s1.defaults
    {
      if !Truthy(item.target) {
        return None;
      }
      var target := item.target.value;
      if Truthy(item.url) && target == "all" {
        AddDefaultUrl(item);
        return None;
      }
      if target !in depDict.vals {
        return Some(KeyError(target));
      }
      var dep := depDict.vals[target];
      ghost var before := View(depDict);
      SetExplicitValues(dep, item);
      assert View(depDict) == before[target := dep.Value()];
      return None;
    }

    /** The `git_url` loop of `__update_explicit_values` (lines 147-173). */
    method ApplyGitUrls(items: seq<GitUrlItem>, depDict: Dict<Dependency>) returns (failure: Option<Exc>)
      requires depDict.Valid() && Distinct(depDict)
      modifies this, DepObjects(depDict)
      ensures var o := ExplicitPass(items, PassState(old(View(depDict)), old(defaultUrls)));
              failure == o.failure && defaultUrls == o.state.defaults && View(depDict) == o.state.deps
    {
      ghost var start := PassState(View(depDict), defaultUrls);
      var i := 0;
      while i < |items|
        invariant 0 <= i <= |items|
        invariant ExplicitPass(items, start) == ExplicitPass(items[i..], PassState(View(depDict), defaultUrls))
      {
        assert items[i..][0] == items[i] && items[i..][1..] == items[i + 1..];
        var f := ApplyOne(items[i], depDict);
        if f.Some? {
          return f;
        }
        i := i + 1;
      }
      assert items[i..] == [];
      return None;
    }
  }

  /** Lines 167-172: a truthy url and a truthy branch of the item overwrite
      those of `dep`. */
  method SetExplicitValues(dep: Dependency, item: GitUrlItem)
    modifies dep
    ensures var v := old(dep.Value());
            var withUrl := if Truthy(item.url) then v.(url := item.url) else v;
            dep.Value() == if Truthy(item.branch) then withUrl.(branch := item.branch) else withUrl
  {
    if Truthy(item.url) {
      dep.url := item.url;
    }
    if Truthy(item.branch) {
      dep.branch := item.branch;
    }
  }

  /** The closing loop of `__update_explicit_values` (lines 175-176): every
      dependency, in dict order, gets `set_default_urls_if_needed(urls)`. */
  method ApplyDefaultUrls(depDict: Dict<Dependency>, urls: set<string>)
    requires depDict.Valid() && Distinct(depDict)
    modifies DepObjects(depDict)
    ensures forall k :: k in depDict.vals ==>
              DefaultsApplied(old(View(depDict))[k], depDict.vals[k].Value(), urls)
  {
    ghost var explicitDone := View(depDict);
    var j := 0;
    while j < |depDict.keys|
      invariant 0 <= j <= |depDict.keys|
      invariant forall n :: 0 <= n < j ==>
                  DefaultsApplied(explicitDone[depDict.keys[n]], depDict.vals[depDict.keys[n]].Value(), urls)
      invariant forall n :: j <= n < |depDict.keys| ==>
                  depDict.vals[depDict.keys[n]].Value() == explicitDone[depDict.keys[n]]
    {
      var dep := depDict.vals[depDict.keys[j]];
      assert forall n :: 0 <= n < |depDict.keys| && n != j ==> depDict.vals[depDict.keys[n]] != dep;
      dep.SetDefaultUrlsIfNeeded(urls);
      j := j + 1;
    }
    forall k | k in depDict.vals
      ensures DefaultsApplied(explicitDone[k], depDict.vals[k].Value(), urls)
    {
      var n :| 0 <= n < |depDict.keys| && depDict.keys[n] == k;
    }
  }

  /** `Parser(default_urls, pkg_name)`: `ValueError` when some template lacks the
      `{package}` placeholder, a parser holding the templates otherwise. */
  method NewParser(defaultUrls: set<string>, pkgName: string) returns (r: Result<Parser>)
    ensures r.Raised? <==> exists u :: u in defaultUrls && !Contains(u, PACKAGE_TAG)
    ensures r.Raised? ==> exists u :: u in defaultUrls && !Contains(u, PACKAGE_TAG) && r.exc == DefaultUrlError(u)
    ensures r.Ok? ==> fresh(r.value) && fresh(r.value.printer) && r.value.defaultUrls == defaultUrls
                      && r.value.pkgName == pkgName && r.value.printer.Valid()
                      && r.value.printer.msgs == Empty() && r.value.printer.out == []
  {
    var order := Enumerate(defaultUrls);
    var i := 0;
    while i < |order|
      invariant 0 <= i <= |order|
      invariant forall j :: 0 <= j < i ==> Contains(order[j], PACKAGE_TAG)
    {
      if !Contains(order[i], PACKAGE_TAG) {
        assert order[i] in order;
        return Raised(DefaultUrlError(order[i]));
      }
      i := i + 1;
    }
    var parser := new Parser(defaultUrls, pkgName);
    return Ok(parser);
  }
}
