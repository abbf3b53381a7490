/** The parts of a file path the core looks at: pathlib's `name`, `parent`
    and `suffix`, and the text after the last dot, `path.split('.')[-1]`. */
module Paths {
  import opened Exceptions

  /** The position of the last `c` in `s`, like `s.rfind(c)`. */
  function LastIndex(s: string, c: char): (r: Option<nat>)
    ensures r.Some? ==> r.value < |s| && s[r.value] == c && c !in s[r.value + 1..]
    ensures r.None? ==> c !in s
    decreases |s|
  {
    if s == [] then None
    else if s[|s| - 1] == c then Some(|s| - 1)
    else
      var init := s[..|s| - 1];
      var r := LastIndex(init, c);
      assert s == init + [s[|s| - 1]];
      assert r.Some? ==> s[r.value + 1..] == init[r.value + 1..] + [s[|s| - 1]];
      r
  }

  /** The text after the last `c`, or all of `s` when there is none:
      `s.split(c)[-1]`. */
  function AfterLast(s: string, c: char): (r: string)
    ensures c !in r
    ensures |r| <= |s| && r == s[|s| - |r|..]
    ensures r == s || s[|s| - |r| - 1] == c
  {
    match LastIndex(s, c)
    case None => s
    case Some(i) => s[i + 1..]
  }

  lemma {:induction false} LastIndexOf(t: string, c: char, u: string)
    requires c !in u
    ensures LastIndex(t + [c] + u, c) == Some(|t|)
    decreases |u|
  {
    var s := t + [c] + u;
    if u != [] {
      var u' := u[..|u| - 1];
      assert s[|s| - 1] == u[|u| - 1];
      assert s[..|s| - 1] == t + [c] + u';
      LastIndexOf(t, c, u');
    }
  }

  /** AfterLast is determined by its contract: the text after a `c` that
      no later `c` follows. */
  lemma AfterLastOf(t: string, c: char, u: string)
    requires c !in u
    ensures AfterLast(t + [c] + u, c) == u
  {
    LastIndexOf(t, c, u);
    assert (t + [c] + u)[|t| + 1..] == u;
  }

  /** pathlib's `Path(path).name`: the final component. */
  function Name(path: string): (r: string)
    ensures '/' !in r
  {
    AfterLast(path, '/')
  }

  /** The directory part of `path` up to and including its last `/`
      (empty when there is none); `Dir(path) + Name(path) == path`. */
  function Dir(path: string): (r: string)
    ensures r + Name(path) == path
    ensures r == [] || r[|r| - 1] == '/'
  {
    var n := Name(path);
    assert path == path[..|path| - |n|] + n;
    path[..|path| - |n|]
  }

  /** `path.split('.')[-1]`: what `can_ingest` compares; the whole string
      when there is no dot. */
  function DotField(path: string): (r: string)
    ensures '.' !in r
  {
    AfterLast(path, '.')
  }

  /** pathlib's `Path(path).suffix`: the final component from its last dot
      on, or empty when that component has no dot, starts with its only dot
      or ends with a dot. */
  function Suffix(path: string): (r: string)
    ensures r == [] || (|r| >= 2 && r[0] == '.' && '.' !in r[1..] && '/' !in r)
  {
    var n := Name(path);
    match LastIndex(n, '.')
    case Some(i) =>
      if 0 < i < |n| - 1 then
        assert '/' !in n[i..] by { assert forall x | x in n[i..] :: x in n; }
        n[i..]
      else ""
    case None => ""
  }

  /** A non-empty suffix, without its dot, is exactly the text after the
      last dot of the whole path: the dispatcher's gate and the handlers'
      `can_ingest` look at the same extension. */
  lemma SuffixDotField(path: string)
    requires Suffix(path) != ""
    ensures DotField(path) == Suffix(path)[1..]
  {
    var n := Name(path);
    var i := LastIndex(n, '.').value;
    DotFieldInName(path, Dir(path), n, i);
  }

  lemma DotFieldInName(path: string, d: string, n: string, i: nat)
    requires path == d + n && i < |n| && n[i] == '.' && '.' !in n[i + 1..]
    ensures DotField(path) == n[i + 1..]
  {
    assert path == (d + n[..i]) + ['.'] + n[i + 1..] by {
      assert n == n[..i] + [n[i]] + n[i + 1..];
    }
    AfterLastOf(d + n[..i], '.', n[i + 1..]);
  }

  /** A bare suffix such as `.jpg`, as the image handlers pass it, compares
      as the text after its dot; an empty suffix compares as "". */
  lemma DotFieldOfSuffix(path: string)
    ensures DotField(Suffix(path)) == if Suffix(path) == "" then "" else Suffix(path)[1..]
  {
    var x := Suffix(path);
    if x != "" {
      DotFieldLead(x);
    }
  }

  lemma DotFieldLead(x: string)
    requires |x| >= 1 && x[0] == '.' && '.' !in x[1..]
    ensures DotField(x) == x[1..]
  {
    assert x == [] + x;
    DotFieldInName(x, [], x, 0);
  }

  /** `Path.joinpath(parent, 'mod_' + name)`: the sibling of `path` whose
      name carries the `mod_` prefix. */
  function ModPath(path: string): (r: string)
    ensures Dir(r) == Dir(path) && Name(r) == "mod_" + Name(path)
  {
    var m := "mod_" + Name(path);
    assert '/' !in m by {
      assert m == ['m', 'o', 'd', '_'] + Name(path);
    }
    NameOfJoin(Dir(path), m);
    Dir(path) + m
  }

  /** A directory part ending in `/` (or empty) followed by a name without
      `/` splits back into the two. */
  lemma NameOfJoin(d: string, m: string)
    requires '/' !in m && (d == [] || d[|d| - 1] == '/')
    ensures Name(d + m) == m && Dir(d + m) == d
  {
    if d == [] {
      assert d + m == m;
      AfterLastNone(m, '/');
    } else {
      assert d + m == d[..|d| - 1] + ['/'] + m;
      AfterLastOf(d[..|d| - 1], '/', m);
    }
  }

  lemma AfterLastNone(s: string, c: char)
    requires c !in s
    ensures AfterLast(s, c) == s
  {
  }

  /** The name and directory of `t/n` for a name `n` without `/`. */
  lemma NameOf(t: string, n: string)
    requires '/' !in n
    ensures Name(t + "/" + n) == n && Dir(t + "/" + n) == t + "/"
  {
    AfterLastOf(t, '/', n);
  }

  /** A file name `stem.ext`, with a non-empty stem and an extension
      without dots, has the suffix `.ext`. */
  lemma SuffixOfName(path: string, stem: string, ext: string)
    requires Name(path) == stem + "." + ext
    requires stem != "" && ext != "" && '.' !in ext
    ensures Suffix(path) == "." + ext
  {
    LastDotOf(Name(path), stem, ext);
  }

  lemma LastDotOf(n: string, stem: string, ext: string)
    requires n == stem + "." + ext && '.' !in ext
    ensures LastIndex(n, '.') == Some(|stem|) && n[|stem|..] == "." + ext
  {
    assert n == stem + ['.'] + ext;
    LastIndexOf(stem, '.', ext);
  }

  /** A name without a dot, or whose only dot leads it, has no suffix. */
  lemma SuffixEmpty(path: string)
    requires var n := Name(path); '.' !in n || (n[0] == '.' && '.' !in n[1..])
    ensures Suffix(path) == ""
  {
    var n := Name(path);
    if '.' in n {
      assert n == [] + ['.'] + n[1..];
      LastIndexOf([], '.', n[1..]);
      assert LastIndex(n, '.') == Some(0);
    } else {
      assert LastIndex(n, '.') == None;
    }
  }
}
