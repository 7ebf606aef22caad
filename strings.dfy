/** The Python string operations the tool relies on, on `seq<char>`:
    prefix/suffix/substring tests, `str.count`, `str.strip`, `str.ljust`,
    `str.split` and the `{package}` substitution done by `str.format`. */
module Strs {

  predicate StartsWith(s: string, p: string)
  {
    |p| <= |s| && s[..|p|] == p
  }

  predicate EndsWith(s: string, p: string)
  {
    |p| <= |s| && s[|s| - |p|..] == p
  }

  /** Python's `t in s`. */
  predicate Contains(s: string, t: string)
    decreases |s|
  {
    StartsWith(s, t) || (|s| > 0 && Contains(s[1..], t))
  }

  lemma {:induction false} ContainsAt(s: string, t: string, i: nat)
    requires i + |t| <= |s| && s[i..i + |t|] == t
    ensures Contains(s, t)
  {
    if i > 0 {
      assert s[1..][i - 1..i - 1 + |t|] == s[i..i + |t|];
      ContainsAt(s[1..], t, i - 1);
    }
  }

  lemma {:induction false} ContainsWitness(s: string, t: string) returns (i: nat)
    requires Contains(s, t)
    ensures i + |t| <= |s| && s[i..i + |t|] == t
  {
    if StartsWith(s, t) {
      i := 0;
    } else {
      var j := ContainsWitness(s[1..], t);
      assert s[1..][j..j + |t|] == s[j + 1..j + 1 + |t|];
      i := j + 1;
    }
  }

  lemma ContainsInfix(a: string, t: string, b: string)
    ensures Contains(a + t + b, t)
  {
    assert (a + t + b)[|a|..|a| + |t|] == t;
    ContainsAt(a + t + b, t, |a|);
  }

  /** Every character of a substring occurs in the string. */
  lemma ContainsChars(s: string, t: string)
    ensures Contains(s, t) ==> forall k :: 0 <= k < |t| ==> t[k] in s
  {
    if Contains(s, t) {
      var i := ContainsWitness(s, t);
      forall k | 0 <= k < |t| ensures t[k] in s {
        assert s[i + k] == s[i..i + |t|][k];
      }
    }
  }

  /** A string holds no substring with a character it lacks. */
  lemma ContainsNeedsChar(s: string, t: string, c: char)
    requires c in t && c !in s
    ensures !Contains(s, t)
  {
    ContainsChars(s, t);
  }

  lemma ContainsExtend(a: string, b: string, t: string)
    requires Contains(a, t)
    ensures Contains(a + b, t)
  {
    var i := ContainsWitness(a, t);
    assert (a + b)[i..i + |t|] == a[i..i + |t|];
    ContainsAt(a + b, t, i);
  }

  /** Replaces every non-overlapping occurrence of `pat`, left to right. */
  function ReplaceAll(s: string, pat: string, rep: string): (r: string)
    requires |pat| > 0
    ensures !Contains(s, pat) ==> r == s
    decreases |s|
  {
    if |s| < |pat| then s
    else if s[..|pat|] == pat then rep + ReplaceAll(s[|pat|..], pat, rep)
    else [s[0]] + ReplaceAll(s[1..], pat, rep)
  }

  /** Python's `s.count(c)` for a one-character `c`. */
  function CountChar(s: string, c: char): nat
  {
    if |s| == 0 then 0 else (if s[0] == c then 1 else 0) + CountChar(s[1..], c)
  }

  lemma {:induction false} CountPositive(s: string, c: char)
    ensures CountChar(s, c) > 0 <==> exists i :: 0 <= i < |s| && s[i] == c
  {
    if |s| > 0 {
      CountPositive(s[1..], c);
      if s[0] != c && CountChar(s, c) == 0 {
        forall i | 0 <= i < |s| ensures s[i] != c {
          if i > 0 { assert s[i] == s[1..][i - 1]; }
        }
      }
      if CountChar(s[1..], c) > 0 {
        var j :| 0 <= j < |s[1..]| && s[1..][j] == c;
        assert s[j + 1] == c;
      }
    }
  }

  /** More than one occurrence of `c` means two distinct positions hold it. */
  lemma {:induction false} CountAboveOne(s: string, c: char)
    ensures CountChar(s, c) > 1 <==>
            exists i, j :: 0 <= i < j < |s| && s[i] == c && s[j] == c
  {
    if |s| > 0 {
      CountAboveOne(s[1..], c);
      CountPositive(s[1..], c);
      if CountChar(s, c) > 1 {
        if s[0] == c {
          var j :| 0 <= j < |s[1..]| && s[1..][j] == c;
          assert s[0] == c && s[j + 1] == c;
        } else {
          var i, j :| 0 <= i < j < |s[1..]| && s[1..][i] == c && s[1..][j] == c;
          assert s[i + 1] == c && s[j + 1] == c;
        }
      }
      if exists i, j :: 0 <= i < j < |s| && s[i] == c && s[j] == c {
        var i, j :| 0 <= i < j < |s| && s[i] == c && s[j] == c;
        assert s[1..][j - 1] == c;
        if i > 0 {
          assert s[1..][i - 1] == c;
        }
      }
    }
  }

  /** A line that holds `c` only at its end counts it once. */
  lemma {:induction false} CountOnlyLast(p: string, c: char)
    ensures c !in p ==> CountChar(p + [c], c) == 1
    decreases |p|
  {
    if c !in p && |p| > 0 {
      assert (p + [c])[1..] == p[1..] + [c];
      assert c !in p[1..];
      CountOnlyLast(p[1..], c);
    }
  }

  /** Whitespace as Python 3's `str.strip()` sees it: the ASCII controls
      9-13 and 28-31, the space, and the Unicode spaces and separators. */
  predicate IsSpace(c: char)
  {
    || (9 as char <= c <= 13 as char) || (28 as char <= c <= 32 as char)
    || c == 0x85 as char || c == 0xA0 as char || c == 0x1680 as char
    || (0x2000 as char <= c <= 0x200A as char)
    || c == 0x2028 as char || c == 0x2029 as char || c == 0x202F as char
    || c == 0x205F as char || c == 0x3000 as char
  }

  predicate AllSpace(s: string)
  {
    forall i :: 0 <= i < |s| ==> IsSpace(s[i])
  }

  /** The length of the whitespace run `s` starts with. */
  function LeadingSpaces(s: string): (n: nat)
    ensures n <= |s| && AllSpace(s[..n])
    ensures n < |s| ==> !IsSpace(s[n])
  {
    if |s| > 0 && IsSpace(s[0]) then
      var m := LeadingSpaces(s[1..]);
      var head := s[..m + 1];
      assert AllSpace(head) by {
        forall i | 0 <= i < m + 1 ensures IsSpace(head[i]) {
          if i > 0 { assert head[i] == s[1..][..m][i - 1]; }
        }
      }
      m + 1
    else
      assert AllSpace(s[..0]);
      0
  }

  /** Where the whitespace run `s` ends with starts. */
  function TrailingStart(s: string): (j: nat)
    ensures j <= |s| && AllSpace(s[j..])
    ensures 0 < j ==> !IsSpace(s[j - 1])
  {
    if |s| > 0 && IsSpace(s[|s| - 1]) then
      var t := s[..|s| - 1];
      var j := TrailingStart(t);
      var tail := s[j..];
      assert AllSpace(tail) by {
        forall i | 0 <= i < |s| - j ensures IsSpace(tail[i]) {
          if i < |t| - j { assert tail[i] == t[j..][i]; }
        }
      }
      j
    else
      assert AllSpace(s[|s|..]);
      |s|
  }

  /** `s.lstrip()`. */
  function TrimLeft(s: string): (r: string)
    ensures r == [] || !IsSpace(r[0])
  {
    s[LeadingSpaces(s)..]
  }

  /** `s.rstrip()`. */
  function TrimRight(s: string): (r: string)
    ensures r == [] || !IsSpace(r[|r| - 1])
  {
    s[..TrailingStart(s)]
  }

  /** Python's `s.strip()`, whitespace as `IsSpace`: Python 3's set. */
  function Strip(s: string): string
  {
    TrimLeft(TrimRight(s))
  }

  /** `Strip` removes exactly a whitespace prefix and a whitespace suffix, and
      the part it keeps neither starts nor ends with whitespace. */
  lemma StripSpec(s: string)
    ensures exists i, j :: 0 <= i <= j <= |s| && AllSpace(s[..i]) && AllSpace(s[j..])
                           && Strip(s) == s[i..j]
    ensures Strip(s) == [] || (!IsSpace(Strip(s)[0]) && !IsSpace(Strip(s)[|Strip(s)| - 1]))
  {
    var j := TrailingStart(s);
    var t := s[..j];
    var i := LeadingSpaces(t);
    assert Strip(s) == s[i..j];
    assert s[..i] == t[..i];
    if i < j {
      assert Strip(s)[|Strip(s)| - 1] == s[j - 1];
    }
  }

  /** A leading no-break space and a trailing ideographic space are stripped,
      as `u"\xa0foo\u3000".strip()` gives `u"foo"`. */
  lemma StripUnicodeSpaces()
    ensures Strip([0xA0 as char] + "foo" + [0x3000 as char]) == "foo"
  {
    var s := [0xA0 as char] + "foo" + [0x3000 as char];
    var t := s[..4];
    assert s[..|s| - 1] == t && t[..3] == [0xA0 as char] + "fo";
    assert IsSpace(s[4]) && !IsSpace(t[3]);
    assert TrailingStart(s) == 4;
    assert t[1..] == "foo" && IsSpace(t[0]) && !IsSpace(t[1..][0]);
    assert LeadingSpaces(t) == 1;
  }

  /** `n` spaces. */
  function Spaces(n: int): (r: string)
    ensures |r| == if n < 0 then 0 else n
    ensures forall i :: 0 <= i < |r| ==> r[i] == ' '
    decreases n
  {
    if n <= 0 then "" else " " + Spaces(n - 1)
  }

  /** Python's `s.ljust(width)`: `s` right-padded with spaces up to `width`. */
  function LJust(s: string, width: int): (r: string)
    ensures |r| == if width > |s| then width else |s|
    ensures r[..|s|] == s
    ensures forall i :: |s| <= i < |r| ==> r[i] == ' '
  {
    s + Spaces(width - |s|)
  }

  /** Python's `s.split(c)` for a one-character separator. */
  function Split(s: string, c: char): (r: seq<string>)
    ensures |r| > 0
    decreases |s|
  {
    if |s| == 0 then [""]
    else
      var rest := Split(s[1..], c);
      if s[0] == c then [""] + rest else [[s[0]] + rest[0]] + rest[1..]
  }

  /** Python's `c.join(ps)`. */
  function Join(ps: seq<string>, c: char): string
    requires |ps| > 0
  {
    if |ps| == 1 then ps[0] else ps[0] + [c] + Join(ps[1..], c)
  }

  /** Splitting loses nothing: joining the pieces gives the input back, and no
      piece holds the separator. */
  lemma {:induction false} SplitJoin(s: string, c: char)
    ensures Join(Split(s, c), c) == s
    ensures forall p :: p in Split(s, c) ==> c !in p
    decreases |s|
  {
    if |s| > 0 {
      var rest := Split(s[1..], c);
      SplitJoin(s[1..], c);
      if s[0] == c {
        assert Split(s, c)[1..] == rest;
      } else {
        var ps := Split(s, c);
        assert ps[1..] == rest[1..];
        if |rest| == 1 {
          assert Join(ps, c) == [s[0]] + rest[0];
        } else {
          assert Join(rest, c) == rest[0] + [c] + Join(rest[1..], c);
          assert Join(ps, c) == [s[0]] + rest[0] + [c] + Join(rest[1..], c);
        }
        assert [s[0]] + s[1..] == s;
        forall p | p in ps ensures c !in p {
          if p == ps[0] {
            assert p == [s[0]] + rest[0];
          } else {
            assert p in rest;
          }
        }
      }
    }
  }

  function DigitChar(d: nat): char
    requires d < 10
  {
    "0123456789"[d]
  }

  /** Python's `str(n)` for a non-negative integer. */
  function NatToString(n: nat): (r: string)
    ensures |r| > 0
  {
    if n < 10 then [DigitChar(n)] else NatToString(n / 10) + [DigitChar(n % 10)]
  }

  /** `os.path.join(a, b)` for two parts: an absolute `b` replaces `a`, and a
      separator is put in between unless `a` is empty or already ends in one. */
  function PathJoin(a: string, b: string): (r: string)
    ensures StartsWith(b, "/") ==> r == b
    ensures !StartsWith(b, "/") ==> EndsWith(r, b) && StartsWith(r, a)
  {
    if StartsWith(b, "/") then b
    else if a == [] || EndsWith(a, "/") then a + b
    else a + "/" + b
  }
}
