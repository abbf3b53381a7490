/** The few Python `str` operations the quote parsers use: `strip`,
    `replace(c, '')`, `split(sep)` and its inverse `sep.join`. */
module Text {
  import opened Exceptions

  /** The characters for which Python's `str.isspace()` holds, so the ones
      that `str.strip()` with no argument removes. */
  const Whitespace: set<char> := {
    '\t', '\n', '\U{000B}', '\U{000C}', '\r', '\U{001C}', '\U{001D}', '\U{001E}', '\U{001F}', ' ',
    '\U{0085}', '\U{00A0}', '\U{1680}',
    '\U{2000}', '\U{2001}', '\U{2002}', '\U{2003}', '\U{2004}', '\U{2005}', '\U{2006}',
    '\U{2007}', '\U{2008}', '\U{2009}', '\U{200A}',
    '\U{2028}', '\U{2029}', '\U{202F}', '\U{205F}', '\U{3000}'
  }

  /** Every character of `s` in positions `lo` to `hi` (exclusive) is in `cs`. */
  predicate AllIn(s: string, lo: int, hi: int, cs: set<char>) {
    forall k | lo <= k < hi && 0 <= k < |s| :: s[k] in cs
  }

  /** `s.lstrip(cs)`: drop the longest prefix made of characters in `cs`. */
  function LStrip(s: string, cs: set<char>): (r: string)
    ensures |r| <= |s| && r == s[|s| - |r|..]
    ensures r == [] || r[0] !in cs
    decreases |s|
  {
    if |s| > 0 && s[0] in cs then LStrip(s[1..], cs) else s
  }

  /** What `lstrip` removes consists of characters of `cs` only. */
  lemma {:induction false} LStripRemoved(s: string, cs: set<char>)
    ensures AllIn(s, 0, |s| - |LStrip(s, cs)|, cs)
    decreases |s|
  {
    if |s| > 0 && s[0] in cs {
      LStripRemoved(s[1..], cs);
      forall k | 1 <= k < |s| - |LStrip(s, cs)| ensures s[k] in cs {
        assert s[k] == s[1..][k - 1];
      }
    }
  }

  /** `s.rstrip(cs)`: drop the longest suffix made of characters in `cs`. */
  function RStrip(s: string, cs: set<char>): (r: string)
    ensures |r| <= |s| && r == s[..|r|]
    ensures r == [] || r[|r| - 1] !in cs
    decreases |s|
  {
    if |s| > 0 && s[|s| - 1] in cs then RStrip(s[..|s| - 1], cs) else s
  }

  /** What `rstrip` removes consists of characters of `cs` only. */
  lemma {:induction false} RStripRemoved(s: string, cs: set<char>)
    ensures AllIn(s, |RStrip(s, cs)|, |s|, cs)
    decreases |s|
  {
    if |s| > 0 && s[|s| - 1] in cs {
      RStripRemoved(s[..|s| - 1], cs);
      forall k | |RStrip(s, cs)| <= k < |s| - 1 ensures s[k] in cs {
        assert s[k] == s[..|s| - 1][k];
      }
    }
  }

  /** `s.strip(cs)`; with `cs == Whitespace` it is `s.strip()`. */
  function Strip(s: string, cs: set<char>): (r: string)
    ensures |r| <= |s|
    ensures r == [] || (r[0] !in cs && r[|r| - 1] !in cs)
  {
    RStrip(LStrip(s, cs), cs)
  }

  lemma {:induction false} LStripAt(s: string, i: nat, cs: set<char>)
    requires i <= |s| && AllIn(s, 0, i, cs)
    requires i == |s| || s[i] !in cs
    ensures LStrip(s, cs) == s[i..]
    decreases i
  {
    if i > 0 {
      assert s[1..][i - 1..] == s[i..];
      LStripAt(s[1..], i - 1, cs);
    }
  }

  lemma {:induction false} RStripAt(s: string, e: nat, cs: set<char>)
    requires e <= |s| && AllIn(s, e, |s|, cs)
    requires e == 0 || s[e - 1] !in cs
    ensures RStrip(s, cs) == s[..e]
    decreases |s| - e
  {
    if e < |s| {
      var s' := s[..|s| - 1];
      assert s'[..e] == s[..e];
      RStripAt(s', e, cs);
    }
  }

  /** Strip is determined by its contract: if everything outside `s[i..e]`
      is removable and `s[i..e]` starts and ends with a character that is
      not, then Strip returns exactly `s[i..e]`. */
  lemma StripAt(s: string, i: nat, e: nat, cs: set<char>)
    requires i <= e <= |s|
    requires AllIn(s, 0, i, cs) && AllIn(s, e, |s|, cs)
    requires i == e || (s[i] !in cs && s[e - 1] !in cs)
    ensures Strip(s, cs) == s[i..e]
  {
    if i == e {
      StripAll(s, i, cs);
    } else {
      StripInner(s, i, e, cs);
    }
  }

  lemma StripAll(s: string, i: nat, cs: set<char>)
    requires i <= |s| && AllIn(s, 0, i, cs) && AllIn(s, i, |s|, cs)
    ensures Strip(s, cs) == []
  {
    AllInJoin(s, 0, i, |s|, cs);
    LStripAt(s, |s|, cs);
  }

  lemma StripInner(s: string, i: nat, e: nat, cs: set<char>)
    requires i < e <= |s|
    requires AllIn(s, 0, i, cs) && AllIn(s, e, |s|, cs)
    requires s[i] !in cs && s[e - 1] !in cs
    ensures Strip(s, cs) == s[i..e]
  {
    LStripAt(s, i, cs);
    RStripOfSuffix(s, i, e, cs);
  }

  lemma RStripOfSuffix(s: string, i: nat, e: nat, cs: set<char>)
    requires i < e <= |s|
    requires AllIn(s, e, |s|, cs) && s[e - 1] !in cs
    ensures RStrip(s[i..], cs) == s[i..e]
  {
    var l := s[i..];
    AllInSuffix(s, i, e, cs);
    assert l[e - i - 1] == s[e - 1];
    RStripAt(l, e - i, cs);
    assert l[..e - i] == s[i..e];
  }

  lemma AllInSuffix(s: string, i: nat, e: nat, cs: set<char>)
    requires i <= e <= |s| && AllIn(s, e, |s|, cs)
    ensures AllIn(s[i..], e - i, |s| - i, cs)
  {
    forall k | e - i <= k < |s| - i ensures s[i..][k] in cs {
      assert s[i..][k] == s[k + i];
    }
  }

  /** What Strip removed lies on both sides of the result and consists of
      characters of `cs` only. */
  lemma StripBounds(s: string, cs: set<char>) returns (i: nat)
    ensures i + |Strip(s, cs)| <= |s| && Strip(s, cs) == s[i..i + |Strip(s, cs)|]
    ensures AllIn(s, 0, i, cs) && AllIn(s, i + |Strip(s, cs)|, |s|, cs)
  {
    var l := LStrip(s, cs);
    var r := RStrip(l, cs);
    LStripRemoved(s, cs);
    RStripRemoved(l, cs);
    i := |s| - |l|;
    assert r == s[i..i + |r|];
    forall k | i + |r| <= k < |s| ensures s[k] in cs {
      assert s[k] == l[k - i];
    }
  }

  /** A string strips to nothing exactly when all its characters are removable. */
  lemma StripEmptyIff(s: string, cs: set<char>)
    ensures Strip(s, cs) == [] <==> AllIn(s, 0, |s|, cs)
  {
    if AllIn(s, 0, |s|, cs) {
      StripAt(s, 0, 0, cs);
    }
    if Strip(s, cs) == [] {
      var i := StripBounds(s, cs);
    }
  }

  /** `lstrip` with a smaller set first changes nothing. */
  lemma {:induction false} LStripAbsorbs(s: string, a: set<char>, b: set<char>)
    requires a <= b
    ensures LStrip(LStrip(s, a), b) == LStrip(s, b)
    decreases |s|
  {
    if |s| > 0 && s[0] in a {
      LStripAbsorbs(s[1..], a, b);
    }
  }

  /** `rstrip` with a smaller set first changes nothing. */
  lemma {:induction false} RStripAbsorbs(s: string, a: set<char>, b: set<char>)
    requires a <= b
    ensures RStrip(RStrip(s, a), b) == RStrip(s, b)
    decreases |s|
  {
    if |s| > 0 && s[|s| - 1] in a {
      RStripAbsorbs(s[..|s| - 1], a, b);
    }
  }

  /** `rstrip` seen from the front: the first character stays unless all
      of the string goes. */
  lemma {:induction false} RStripFront(s: string, d: set<char>)
    requires |s| > 0
    ensures RStrip(s, d) ==
      if RStrip(s[1..], d) == [] then (if s[0] in d then [] else [s[0]])
      else [s[0]] + RStrip(s[1..], d)
    decreases |s|
  {
    if |s| == 1 {
      assert s[1..] == [];
      assert s[..0] == [];
    } else if s[|s| - 1] in d {
      var t := s[..|s| - 1];
      assert t[1..] == s[1..][..|s[1..]| - 1];
      assert s[1..][|s[1..]| - 1] == s[|s| - 1];
      RStripFront(t, d);
    } else {
      assert s[1..][|s[1..]| - 1] == s[|s| - 1];
      assert s == [s[0]] + s[1..];
    }
  }

  /** `lstrip` and `rstrip` commute. */
  lemma {:induction false} StripsCommute(s: string, c: set<char>, d: set<char>)
    ensures LStrip(RStrip(s, d), c) == RStrip(LStrip(s, c), d)
    decreases |s|
  {
    if |s| > 0 {
      RStripFront(s, d);
      if s[0] in c {
        StripsCommute(s[1..], c, d);
        var t := RStrip(s[1..], d);
        if t != [] {
          assert ([s[0]] + t)[1..] == t;
        }
      }
    }
  }

  /** Stripping with a smaller set first changes nothing:
      `s.strip(a).strip(b) == s.strip(b)` when `a <= b`. */
  lemma StripAbsorbs(s: string, a: set<char>, b: set<char>)
    requires a <= b
    ensures Strip(Strip(s, a), b) == Strip(s, b)
  {
    var x := LStrip(s, a);
    StripsCommute(x, b, a);
    LStripAbsorbs(s, a, b);
    RStripAbsorbs(LStrip(s, b), a, b);
  }

  lemma AllInJoin(s: string, lo: int, mid: int, hi: int, cs: set<char>)
    requires lo <= mid <= hi && AllIn(s, lo, mid, cs) && AllIn(s, mid, hi, cs)
    ensures AllIn(s, lo, hi, cs)
  {
  }

  /** `s.replace(c, '')`. */
  function RemoveAll(s: string, c: char): (r: string)
    ensures c !in r
    ensures forall x | x != c :: x in r <==> x in s
    decreases |s|
  {
    if s == [] then []
    else (if s[0] == c then [] else [s[0]]) + RemoveAll(s[1..], c)
  }

  lemma {:induction false} RemoveAllAppend(x: string, y: string, c: char)
    ensures RemoveAll(x + y, c) == RemoveAll(x, c) + RemoveAll(y, c)
    decreases |x|
  {
    if x != [] {
      var h := if x[0] == c then [] else [x[0]];
      assert (x + y)[0] == x[0];
      assert (x + y)[1..] == x[1..] + y;
      RemoveAllAppend(x[1..], y, c);
      calc {
        RemoveAll(x + y, c);
        h + RemoveAll(x[1..] + y, c);
        h + (RemoveAll(x[1..], c) + RemoveAll(y, c));
        (h + RemoveAll(x[1..], c)) + RemoveAll(y, c);
        RemoveAll(x, c) + RemoveAll(y, c);
      }
    } else {
      assert x + y == y;
    }
  }

  /** Removing a character that does not occur leaves the string as it is. */
  lemma {:induction false} RemoveAllAbsent(s: string, c: char)
    requires c !in s
    ensures RemoveAll(s, c) == s
    decreases |s|
  {
    if s != [] {
      assert s == [s[0]] + s[1..];
      RemoveAllAbsent(s[1..], c);
    }
  }

  lemma SliceOfPrefix(s: string, k: nat, j: nat, n: nat)
    requires j + n <= k <= |s|
    ensures s[..k][j..j + n] == s[j..j + n]
  {
    forall i | j <= i < j + n ensures s[..k][i] == s[i] {
    }
  }

  predicate OccursAt(s: string, sep: string, j: int) {
    0 <= j && j + |sep| <= |s| && s[j..j + |sep|] == sep
  }

  predicate Contains(s: string, sep: string) {
    exists j | 0 <= j <= |s| :: OccursAt(s, sep, j)
  }

  /** `sep` does not occur at `j` when one of its characters is not where
      it would have to be. */
  lemma MismatchAt(s: string, sep: string, j: int, d: nat)
    requires d < |sep| && 0 <= j + d < |s| && s[j + d] != sep[d]
    ensures !OccursAt(s, sep, j)
  {
    if 0 <= j && j + |sep| <= |s| {
      assert s[j..j + |sep|][d] == s[j + d];
    }
  }

  /** `s.find(sep, i)`: the first occurrence of `sep` at or after `i`. */
  function IndexFrom(s: string, sep: string, i: nat): (r: Option<nat>)
    requires i <= |s|
    ensures r.Some? ==> i <= r.value && OccursAt(s, sep, r.value)
    ensures forall j | i <= j && (r.None? || j < r.value) :: !OccursAt(s, sep, j)
    decreases |s| - i
  {
    if i + |sep| > |s| then None
    else if s[i..i + |sep|] == sep then Some(i)
    else IndexFrom(s, sep, i + 1)
  }

  function IndexOf(s: string, sep: string): (r: Option<nat>)
    ensures r.Some? ==> OccursAt(s, sep, r.value)
    ensures forall j | 0 <= j && (r.None? || j < r.value) :: !OccursAt(s, sep, j)
    ensures r.None? <==> !Contains(s, sep)
  {
    IndexFrom(s, sep, 0)
  }

  /** `sep.join(parts)`. */
  function Join(parts: seq<string>, sep: string): string
    decreases |parts|
  {
    if |parts| == 0 then ""
    else if |parts| == 1 then parts[0]
    else parts[0] + sep + Join(parts[1..], sep)
  }

  /** `s.split(sep)` for a non-empty separator: cut at each occurrence found
      scanning left to right, occurrences not overlapping. */
  function Split(s: string, sep: string): (r: seq<string>)
    requires |sep| > 0
    ensures |r| >= 1
    ensures Join(r, sep) == s
    ensures forall k | 0 <= k < |r| :: !Contains(r[k], sep)
    decreases |s|
  {
    match IndexOf(s, sep)
    case None => [s]
    case Some(k) =>
      var head, rest := s[..k], Split(s[k + |sep|..], sep);
      assert !Contains(head, sep) by {
        forall j | 0 <= j <= |head| ensures !OccursAt(head, sep, j) {
          if j + |sep| <= |head| {
            assert OccursAt(s, sep, k) && |head| == k;
            SliceOfPrefix(s, k, j, |sep|);
            assert !OccursAt(s, sep, j);
          }
        }
      }
      assert s == head + sep + s[k + |sep|..] by {
        assert s == s[..k] + s[k..k + |sep|] + s[k + |sep|..];
      }
      assert ([head] + rest)[1..] == rest;
      [head] + rest
  }

  /** The first two fields of a split, `parts[0]` and `parts[1]`: the text
      before the first separator, and the text between the first and the
      second (or the end). There is a second field exactly when the separator
      occurs. */
  lemma SplitFields(s: string, sep: string)
    requires |sep| > 0
    ensures |Split(s, sep)| >= 2 <==> Contains(s, sep)
    ensures IndexOf(s, sep).None? ==> Split(s, sep)[0] == s
    ensures IndexOf(s, sep).Some? ==>
      var k := IndexOf(s, sep).value;
      Split(s, sep)[0] == s[..k] && Split(s, sep)[1] == Split(s[k + |sep|..], sep)[0]
  {
  }

  /** The first occurrence of `sep` in `x + sep + y` is the one after `x`
      when `x` holds none and none straddles the border. */
  lemma IndexOfPair(x: string, y: string, sep: string)
    requires !Contains(x, sep)
    requires forall j | 0 <= j < |x| && |x| < j + |sep| :: !OccursAt(x + sep, sep, j)
    ensures IndexOf(x + sep + y, sep) == Some(|x|)
  {
    var s := x + sep + y;
    assert OccursAt(s, sep, |x|) by { assert s[|x|..|x| + |sep|] == sep; }
    forall j | 0 <= j < |x| ensures !OccursAt(s, sep, j) {
      if j + |sep| <= |x| {
        assert s[..|x|] == x;
        SliceOfPrefix(s, |x|, j, |sep|);
        assert !OccursAt(x, sep, j);
      } else {
        assert s[..|x| + |sep|] == x + sep;
        SliceOfPrefix(s, |x| + |sep|, j, |sep|);
        assert !OccursAt(x + sep, sep, j);
      }
    }
  }

  /** The split of `x + sep + y` is `[x, y]` when neither part contains the
      separator and no occurrence straddles the border between `x` and `sep`. */
  lemma SplitPair(x: string, y: string, sep: string)
    requires |sep| > 0
    requires !Contains(x, sep) && !Contains(y, sep)
    requires forall j | 0 <= j < |x| && |x| < j + |sep| :: !OccursAt(x + sep, sep, j)
    ensures Split(x + sep + y, sep) == [x, y]
  {
    var s := x + sep + y;
    IndexOfPair(x, y, sep);
    assert s[..|x|] == x;
    assert s[|x| + |sep|..] == y;
    assert Split(y, sep) == [y];
  }
}
