/** The parts of a ROS `package.xml` that the parsers of both generations
    read, as already-parsed values (the XML parsing itself is not modelled),
    and the whitespace fix applied to every dependency name. */
module Manifest {
  import opened Wrappers
  import opened Strs

  /** One `<git_url .../>` element of the `<export>` section. An attribute that
      is absent is `None`; an attribute given as `""` is `Some("")`. */
  datatype GitUrlItem = GitUrlItem(target: Option<string>, url: Option<string>, branch: Option<string>)

  /** The text of every `<build_depend>` and every `<depend>` element, in
      document order, and every `<git_url>` element. */
  datatype Document = Document(buildDepends: seq<string>, depends: seq<string>, gitUrls: seq<GitUrlItem>)

  /** `Parser.__fix_dependencies`: a copy of `deps` in which every entry is
      replaced by its stripped form (written identically in both generations,
      catkin_tools_fetch/lib/dependency_parser.py and
      catkin_tools_fetch/fetcher/dependency_parser.py). */
  method FixDependencies(deps: seq<string>) returns (fixedDeps: seq<string>)
    ensures |fixedDeps| == |deps|
    ensures forall i :: 0 <= i < |deps| ==> fixedDeps[i] == Strip(deps[i])
    ensures fixedDeps == Fixed(deps)
  {
    fixedDeps := deps;
    var i := 0;
    while i < |deps|
      invariant 0 <= i <= |deps| && |fixedDeps| == |deps|
      invariant forall j :: 0 <= j < i ==> fixedDeps[j] == Strip(deps[j])
      invariant forall j :: i <= j < |deps| ==> fixedDeps[j] == deps[j]
    {
      fixedDeps := fixedDeps[i := Strip(deps[i])];
      i := i + 1;
    }
  }

  /** The list `__fix_dependencies` returns for `deps`. */
  function Fixed(deps: seq<string>): seq<string>
  {
    seq(|deps|, i requires 0 <= i < |deps| => Strip(deps[i]))
  }

  /** A non-empty whitespace prefix starts with whitespace, and a non-empty
      whitespace suffix ends with it. */
  lemma SpaceRunEnds(s: string, i: int, j: int)
    requires 0 <= i <= j <= |s|
    ensures 0 < i && AllSpace(s[..i]) ==> IsSpace(s[0])
    ensures j < |s| && AllSpace(s[j..]) ==> IsSpace(s[|s| - 1])
  {
    if 0 < i {
      assert s[..i][0] == s[0];
    }
    if j < |s| {
      assert s[j..][|s| - 1 - j] == s[|s| - 1];
    }
  }

  /** What the fix does to one name: it drops exactly the surrounding
      whitespace, and a name that has none is kept as it is. */
  lemma StripFixesOnlyWhitespace(dep: string)
    ensures exists i, j :: 0 <= i <= j <= |dep| && AllSpace(dep[..i]) && AllSpace(dep[j..])
                           && Strip(dep) == dep[i..j]
    ensures Strip(dep) == [] || (!IsSpace(Strip(dep)[0]) && !IsSpace(Strip(dep)[|Strip(dep)| - 1]))
    ensures |dep| > 0 && !IsSpace(dep[0]) && !IsSpace(dep[|dep| - 1]) ==> Strip(dep) == dep
  {
    StripSpec(dep);
    if |dep| > 0 && !IsSpace(dep[0]) && !IsSpace(dep[|dep| - 1]) {
      var i, j :| 0 <= i <= j <= |dep| && AllSpace(dep[..i]) && AllSpace(dep[j..])
                  && Strip(dep) == dep[i..j];
      SpaceRunEnds(dep, i, j);
      assert dep[0..|dep|] == dep;
    }
  }
}
