/** Python dictionaries with string keys. From Python 3.7 a dict remembers the
    order in which its keys were first inserted, and the tool iterates over
    dicts, so the model keeps that order next to the mapping itself. */
module Dicts {

  /** The keys in insertion order, and the mapping. */
  datatype Dict<V> = Dict(keys: seq<string>, vals: map<string, V>) {

    /** Keys are listed once each, and exactly the mapped ones are listed. */
    ghost predicate Valid()
    {
      && (forall i, j :: 0 <= i < j < |keys| ==> keys[i] != keys[j])
      && (forall k :: k in vals <==> k in keys)
    }

    /** `d[k] = v`: a key already present keeps its place, a new one goes last. */
    function Put(k: string, v: V): (d: Dict<V>)
      requires Valid()
      ensures d.Valid()
      ensures d.vals == vals[k := v]
      ensures d.keys == if k in vals then keys else keys + [k]
    {
      if k in vals then Dict(keys, vals[k := v]) else Dict(keys + [k], vals[k := v])
    }

    /** `del d[k]` when `k` is present; no change otherwise. */
    function Remove(k: string): (d: Dict<V>)
      requires Valid()
      ensures d.Valid()
      ensures d.vals == vals - {k}
      ensures d.keys == Without(keys, k)
    {
      WithoutSpec(keys, k);
      Dict(Without(keys, k), vals - {k})
    }

    /** `d.update(other)`: every entry of `other` is written in, the later
        writer winning. */
    function Update(other: Dict<V>): (d: Dict<V>)
      requires Valid() && other.Valid()
      ensures d.Valid()
      ensures d.vals == vals + other.vals
    {
      var d := PutAll(this, other.keys, other.vals);
      assert d.vals == vals + other.vals;
      d
    }
  }

  function Empty<V>(): (d: Dict<V>)
    ensures d.Valid() && d.vals == map[] && d.keys == []
  {
    Dict([], map[])
  }

  /** Writes `m[k]` for each `k` of `ks` in turn. */
  function PutAll<V>(d: Dict<V>, ks: seq<string>, m: map<string, V>): (r: Dict<V>)
    requires d.Valid()
    requires forall k :: k in ks ==> k in m
    ensures r.Valid()
    ensures forall k :: k in r.vals <==> k in d.vals || k in ks
    ensures forall k :: k in r.vals ==> r.vals[k] == if k in ks then m[k] else d.vals[k]
    decreases |ks|
  {
    if ks == [] then d
    else
      assert forall k :: k in ks <==> k == ks[0] || k in ks[1..];
      PutAll(d.Put(ks[0], m[ks[0]]), ks[1..], m)
  }

  /** `s` with every occurrence of `k` left out. */
  function Without(s: seq<string>, k: string): seq<string>
  {
    if s == [] then [] else if s[0] == k then Without(s[1..], k) else [s[0]] + Without(s[1..], k)
  }

  /** The tail of a sequence without repetitions has none either, and does
      not hold the head. */
  lemma DistinctTail(s: seq<string>)
    requires s != [] && forall i, j :: 0 <= i < j < |s| ==> s[i] != s[j]
    ensures forall i, j :: 0 <= i < j < |s[1..]| ==> s[1..][i] != s[1..][j]
    ensures s[0] !in s[1..]
  {
    forall i, j | 0 <= i < j < |s[1..]| ensures s[1..][i] != s[1..][j] {
      assert s[1..][i] == s[i + 1] && s[1..][j] == s[j + 1];
    }
    forall i | 0 <= i < |s[1..]| ensures s[1..][i] != s[0] {
      assert s[1..][i] == s[i + 1];
    }
  }

  /** The names of `ks` that are not in `excluded`, in order. */
  function Outside(ks: seq<string>, excluded: set<string>): seq<string>
  {
    if ks == [] then []
    else Outside(ks[..|ks| - 1], excluded) + (if ks[|ks| - 1] in excluded then [] else [ks[|ks| - 1]])
  }

  /** `Outside` of a list is that of its front, then its last name if kept. */
  lemma OutsideSnoc(ks: seq<string>, k: string, excluded: set<string>)
    ensures Outside(ks + [k], excluded) == Outside(ks, excluded) + (if k in excluded then [] else [k])
  {
    assert (ks + [k])[..|ks|] == ks;
  }

  /** A name survives exactly when it is listed and not excluded. */
  lemma {:induction false} OutsideSpec(ks: seq<string>, excluded: set<string>)
    ensures forall x :: x in Outside(ks, excluded) <==> x in ks && x !in excluded
  {
    if ks != [] {
      var init := ks[..|ks| - 1];
      OutsideSpec(init, excluded);
      assert forall x :: x in ks <==> x in init || x == ks[|ks| - 1];
    }
  }

  /** Leaving out an absent key changes nothing. */
  lemma {:induction false} WithoutAbsent(s: seq<string>, k: string)
    ensures k !in s ==> Without(s, k) == s
  {
    if s != [] && k !in s {
      assert k !in s[1..];
      WithoutAbsent(s[1..], k);
      assert [s[0]] + s[1..] == s;
    }
  }

  lemma {:induction false} WithoutSpec(s: seq<string>, k: string)
    ensures forall x :: x in Without(s, k) <==> x in s && x != k
    ensures (forall i, j :: 0 <= i < j < |s| ==> s[i] != s[j]) ==>
            forall i, j :: 0 <= i < j < |Without(s, k)| ==> Without(s, k)[i] != Without(s, k)[j]
  {
    if s != [] {
      WithoutSpec(s[1..], k);
      var w := Without(s, k);
      if (forall i, j :: 0 <= i < j < |s| ==> s[i] != s[j]) && s[0] != k {
        assert s[0] !in s[1..] by {
          forall i | 0 <= i < |s[1..]| ensures s[1..][i] != s[0] { assert s[1..][i] == s[i + 1]; }
        }
        assert forall i, j :: 0 <= i < j < |s[1..]| ==> s[1..][i] != s[1..][j] by {
          forall i, j | 0 <= i < j < |s[1..]| ensures s[1..][i] != s[1..][j] {
            assert s[1..][i] == s[i + 1] && s[1..][j] == s[j + 1];
          }
        }
        forall i, j | 0 <= i < j < |w| ensures w[i] != w[j] {
          if i == 0 {
            assert w[j] in Without(s[1..], k);
          } else {
            assert w[i] == Without(s[1..], k)[i - 1] && w[j] == Without(s[1..], k)[j - 1];
          }
        }
      }
      if (forall i, j :: 0 <= i < j < |s| ==> s[i] != s[j]) && s[0] == k {
        assert forall i, j :: 0 <= i < j < |s[1..]| ==> s[1..][i] != s[1..][j] by {
          forall i, j | 0 <= i < j < |s[1..]| ensures s[1..][i] != s[1..][j] {
            assert s[1..][i] == s[i + 1] && s[1..][j] == s[j + 1];
          }
        }
      }
    }
  }

  /** The keys of a dict filled from `s` in order: each name at its first
      occurrence. */
  function Dedup(s: seq<string>): (r: seq<string>)
    ensures forall x :: x in r <==> x in s
    ensures forall i, j :: 0 <= i < j < |r| ==> r[i] != r[j]
  {
    if s == [] then []
    else
      var p := Dedup(s[..|s| - 1]);
      assert forall x :: x in s <==> x in s[..|s| - 1] || x == s[|s| - 1];
      if s[|s| - 1] in p then p else p + [s[|s| - 1]]
  }

  /** `order` lists the elements of `s` once each: one possible iteration
      order of a Python set, which the language leaves unspecified. */
  ghost predicate IsEnumeration(order: seq<string>, s: set<string>)
  {
    && (forall i, j :: 0 <= i < j < |order| ==> order[i] != order[j])
    && (forall x :: x in order <==> x in s)
  }

  /** Iterates over a set: picks its elements one by one in an unspecified
      order. */
  method Enumerate(s: set<string>) returns (order: seq<string>)
    ensures IsEnumeration(order, s)
  {
    order := [];
    var rest := s;
    while rest != {}
      invariant rest <= s
      invariant IsEnumeration(order, s - rest)
      decreases |rest|
    {
      var x :| x in rest;
      order := order + [x];
      rest := rest - {x};
    }
  }
}
