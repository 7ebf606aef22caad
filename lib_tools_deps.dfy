/** The two rules of catkin_tools_fetch/lib/tools.py that work on `Dependency`
    objects: `GitBridge.repository_exists`, which probes candidate urls and
    writes the first reachable one into the dependency, and
    `Tools.update_deps_dict`, which merges one dependency dict into another in
    place and gives up on the first conflict. `git ls-remote` is an oracle
    `probe`; the `GIT_TERMINAL_PROMPT` setting of the environment is left out. */
module LibToolsDeps {
  import opened Wrappers
  import opened Dicts
  import opened LibDependency

  // ---------------------------------------------------------------------
  // GitBridge.repository_exists
  // ---------------------------------------------------------------------

  /** The urls `repository_exists` tries: the explicit url alone when it is
      truthy, the default urls otherwise. */
  function Candidates(v: DepValue): seq<string>
  {
    if Truthy(v.url) then [v.url.value] else v.defaultUrls
  }

  /** The index of the first url the probe accepts, if any. */
  function FirstHit(urls: seq<string>, probe: string -> bool): (r: Option<nat>)
    ensures r.Some? ==> r.value < |urls| && probe(urls[r.value])
    ensures r.Some? ==> forall j :: 0 <= j < r.value ==> !probe(urls[j])
    ensures r.None? <==> forall j :: 0 <= j < |urls| ==> !probe(urls[j])
  {
    if urls == [] then None
    else if probe(urls[0]) then Some(0)
    else
      var rest := FirstHit(urls[1..], probe);
      assert forall j :: 1 <= j < |urls| ==> urls[j] == urls[1..][j - 1];
      if rest.Some? then Some(rest.value + 1) else None
  }

  /** What `repository_exists` returns for a dependency in state `v`: the
      dependency (with the first reachable candidate as its url) and whether
      one was reachable. */
  function ProbeDep(v: DepValue, probe: string -> bool): (r: (DepValue, bool))
    ensures r.1 <==> exists j :: 0 <= j < |Candidates(v)| && probe(Candidates(v)[j])
    ensures r.1 ==> r.0 == v.(url := r.0.url) && r.0.url.Some? && r.0.url.value in Candidates(v)
                    && probe(r.0.url.value)
    ensures r.1 ==> exists j :: 0 <= j < |Candidates(v)| && r.0.url == Some(Candidates(v)[j])
                               && probe(Candidates(v)[j])
                               && forall k :: 0 <= k < j ==> !probe(Candidates(v)[k])
    ensures !r.1 ==> r.0 == v
    ensures r.0.name == v.name && r.0.branch == v.branch && r.0.defaultUrls == v.defaultUrls
  {
    var hit := FirstHit(Candidates(v), probe);
    if hit.Some? then (v.(url := Some(Candidates(v)[hit.value])), true) else (v, false)
  }

  /** Probes the candidates in order, stopping at the first success, whose url
      becomes the dependency's url. `probed` lists the urls handed to git. */
  method RepositoryExists(dependency: Dependency, probe: string -> bool)
    returns (found: bool, probed: seq<string>)
    modifies dependency
    ensures (dependency.Value(), found) == ProbeDep(old(dependency.Value()), probe)
    ensures var urls := Candidates(old(dependency.Value()));
            var hit := FirstHit(urls, probe);
            probed == (if hit.Some? then urls[..hit.value + 1] else urls)
  {
    var urls: seq<string>;
    if Truthy(dependency.url) {
      urls := [dependency.url.value];
    } else {
      urls := dependency.defaultUrls;
    }
    ghost var hit := FirstHit(urls, probe);
    probed := [];
    var i := 0;
    while i < |urls|
      invariant 0 <= i <= |urls|
      invariant probed == urls[..i]
      invariant forall j :: 0 <= j < i ==> !probe(urls[j])
      invariant dependency.Value() == old(dependency.Value())
    {
      var url := urls[i];
      probed := probed + [url];
      if probe(url) {
        dependency.url := Some(url);
        assert hit == Some(i);
        return true, probed;
      }
      i := i + 1;
    }
    assert urls[..i] == urls;
    return false, probed;
  }

  // ---------------------------------------------------------------------
  // Tools.update_deps_dict, on values
  // ---------------------------------------------------------------------

  /** A branch that counts as unset: `None`, `''` or the text `'None'`. */
  predicate Unset(branch: Option<string>)
  {
    !Truthy(branch) || branch == Some("None")
  }

  /** The old entry after it has adopted the new branch where its own is unset. */
  function Adopted(oldDep: DepValue, dep: DepValue): DepValue
  {
    if Unset(oldDep.branch) then oldDep.(branch := dep.branch) else oldDep
  }

  /** `dep` can be merged into the (adopted) old entry: its branch is unset or
      equal, and the urls are equal (`None` differs from any url). */
  predicate Compatible(oldDep: DepValue, dep: DepValue)
  {
    && (Unset(dep.branch) || dep.branch == Adopted(oldDep, dep).branch)
    && dep.url == Adopted(oldDep, dep).url
  }

  /** One iteration of the loop: the new state of `base` and whether to go on. */
  function MergeStep(base: Dict<DepValue>, name: string, dep: DepValue): (r: (Dict<DepValue>, bool))
    requires base.Valid()
    ensures r.0.Valid()
  {
    if name in base.vals then
      var updated := Adopted(base.vals[name], dep);
      (base.Put(name, updated), Compatible(base.vals[name], dep))
    else (base.Put(name, dep), true)
  }

  /** The loop over the names of the new dict, stopping at the first conflict. */
  function MergeAll(base: Dict<DepValue>, names: seq<string>, deps: map<string, DepValue>): (r: (Dict<DepValue>, bool))
    requires base.Valid() && forall k :: k in names ==> k in deps
    ensures r.0.Valid()
    decreases |names|
  {
    if names == [] then (base, true)
    else
      var step := MergeStep(base, names[0], deps[names[0]]);
      if !step.1 then step
      else MergeAll(step.0, names[1..], deps)
  }

  /** The merge succeeds exactly when every shared name is compatible, so the
      verdict does not depend on the order of the new dict. */
  lemma {:induction false} MergeOkIff(base: Dict<DepValue>, names: seq<string>, deps: map<string, DepValue>)
    requires base.Valid() && forall k :: k in names ==> k in deps
    requires forall i, j :: 0 <= i < j < |names| ==> names[i] != names[j]
    ensures MergeAll(base, names, deps).1 <==>
            forall k :: k in names && k in base.vals ==> Compatible(base.vals[k], deps[k])
    decreases |names|
  {
    if names != [] {
      var step := MergeStep(base, names[0], deps[names[0]]);
      if step.1 {
        DistinctTail(names);
        MergeOkIff(step.0, names[1..], deps);
        assert forall k :: k in names[1..] && k in step.0.vals ==> k in base.vals && step.0.vals[k] == base.vals[k];
        assert forall k :: k in step.0.vals ==> k in base.vals || k == names[0];
        assert forall k :: k in names <==> k == names[0] || k in names[1..];
      }
    }
  }

  /** A successful merge keeps every old entry (with the adopted branch where
      the name is shared) and adds every new name the base lacked. */
  lemma {:induction false} MergeContents(base: Dict<DepValue>, names: seq<string>, deps: map<string, DepValue>)
    requires base.Valid() && forall k :: k in names ==> k in deps
    requires forall i, j :: 0 <= i < j < |names| ==> names[i] != names[j]
    requires MergeAll(base, names, deps).1
    ensures forall k :: k in MergeAll(base, names, deps).0.vals <==> k in base.vals || k in names
    ensures forall k :: k in names && k !in base.vals ==> MergeAll(base, names, deps).0.vals[k] == deps[k]
    ensures forall k :: k in names && k in base.vals ==>
              MergeAll(base, names, deps).0.vals[k] == Adopted(base.vals[k], deps[k])
    ensures forall k :: k in base.vals && k !in names ==> MergeAll(base, names, deps).0.vals[k] == base.vals[k]
    decreases |names|
  {
    if names != [] {
      var n := names[0];
      var step := MergeStep(base, n, deps[n]);
      var r := MergeAll(base, names, deps);
      DistinctTail(names);
      assert r == MergeAll(step.0, names[1..], deps);
      MergeContents(step.0, names[1..], deps);
      forall k ensures k in names <==> k == n || k in names[1..] {
      }
      forall k | k in names && k !in base.vals ensures r.0.vals[k] == deps[k] {
        if k != n {
          assert k in names[1..];
        }
      }
      forall k | k in names && k in base.vals ensures r.0.vals[k] == Adopted(base.vals[k], deps[k]) {
        if k != n {
          assert k in names[1..];
        }
      }
      forall k | k in base.vals && k !in names ensures r.0.vals[k] == base.vals[k] {
        assert k != n && k !in names[1..];
      }
    }
  }

  /** `update_deps_dict(base_dict, new_dict)` on the values of the two dicts:
      `baseAfter` is `base_dict` after the call (it is changed even when the
      call gives up), and the result is that dict, or `None` on a conflict. */
  method UpdateDepsDict(base: Dict<DepValue>, newDict: Dict<DepValue>)
    returns (result: Option<Dict<DepValue>>, baseAfter: Dict<DepValue>)
    requires base.Valid() && newDict.Valid()
    ensures var m := MergeAll(base, newDict.keys, newDict.vals);
            baseAfter == m.0 && result == (if m.1 then Some(baseAfter) else None)
  {
    baseAfter := base;
    var i := 0;
    assert newDict.keys[0..] == newDict.keys;
    while i < |newDict.keys|
      invariant 0 <= i <= |newDict.keys| && baseAfter.Valid()
      invariant MergeAll(base, newDict.keys, newDict.vals) == MergeAll(baseAfter, newDict.keys[i..], newDict.vals)
    {
      var depName := newDict.keys[i];
      ghost var pre := baseAfter;
      var ok;
      baseAfter, ok := MergeEntry(baseAfter, depName, newDict.vals[depName]);
      CarryMerge(base, pre, baseAfter, ok, newDict.keys, i, newDict.vals);
      if !ok {
        return None, baseAfter;
      }
      i := i + 1;
    }
    assert newDict.keys[i..] == [];
    return Some(baseAfter), baseAfter;
  }

  /** Lines 242-256 for one name of the new dict. */
  method MergeEntry(base: Dict<DepValue>, name: string, dep: DepValue) returns (baseAfter: Dict<DepValue>, ok: bool)
    requires base.Valid()
    ensures (baseAfter, ok) == MergeStep(base, name, dep)
  {
    ok := true;
    if name in base.vals {
      var oldDep := base.vals[name];
      if Unset(oldDep.branch) {
        oldDep := oldDep.(branch := dep.branch);
      }
      ok := !(Truthy(dep.branch) && dep.branch != Some("None") && dep.branch != oldDep.branch)
            && dep.url == oldDep.url;
      baseAfter := base.Put(name, oldDep);
    } else {
      baseAfter := base.Put(name, dep);
    }
  }

  /** One turn of the loop: the rest of the merge from the state after the
      turn is the rest of the merge from the state before. */
  lemma CarryMerge(start: Dict<DepValue>, pre: Dict<DepValue>, post: Dict<DepValue>, ok: bool,
                   names: seq<string>, i: nat, deps: map<string, DepValue>)
    requires i < |names| && start.Valid() && pre.Valid() && forall k :: k in names ==> k in deps
    requires MergeAll(start, names, deps) == MergeAll(pre, names[i..], deps)
    requires (post, ok) == MergeStep(pre, names[i], deps[names[i]])
    ensures post.Valid()
    ensures ok ==> MergeAll(start, names, deps) == MergeAll(post, names[i + 1..], deps)
    ensures !ok ==> MergeAll(start, names, deps) == (post, false)
  {
    assert names[i..][0] == names[i] && names[i..][1..] == names[i + 1..];
  }
}
