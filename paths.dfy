/** The parts of Node's POSIX `path` module the extension uses: `dirname`,
    `basename` and `join` (without `join`'s normalisation of `.`, `..` and
    repeated slashes). */
module Paths {

  /** The scan of `dirname`: walking down from index `i` (never to index
      0), the first `/` met after some non-slash character, or -1. */
  function DirEnd(p: string, i: int, matchedSlash: bool): (end: int)
    requires 0 <= i < |p|
    ensures -1 <= end <= i && (end >= 1 ==> p[end] == '/')
    decreases i
  {
    if i < 1 then -1
    else if p[i] == '/' then (if !matchedSlash then i else DirEnd(p, i - 1, matchedSlash))
    else DirEnd(p, i - 1, false)
  }

  /** `path.dirname(p)`. */
  function Dirname(p: string): string
  {
    if |p| == 0 then "."
    else
      var hasRoot := p[0] == '/';
      var end := DirEnd(p, |p| - 1, true);
      if end == -1 then (if hasRoot then "/" else ".")
      else if hasRoot && end == 1 then "//"
      else p[..end]
  }

  /** `p` without the slashes at its end. */
  function StripTrailingSlashes(p: string): (r: string)
    ensures |r| <= |p| && r == p[..|r|]
    ensures r == [] || r[|r| - 1] != '/'
  {
    if p != [] && p[|p| - 1] == '/' then StripTrailingSlashes(p[..|p| - 1]) else p
  }

  /** The characters after the last `/` of `p` (all of `p` when it has none). */
  function AfterLastSlash(p: string): (r: string)
    ensures '/' !in r
  {
    if p == [] || p[|p| - 1] == '/' then [] else AfterLastSlash(p[..|p| - 1]) + [p[|p| - 1]]
  }

  /** `path.basename(p)`: the last segment, ignoring trailing slashes. */
  function Basename(p: string): string
  {
    AfterLastSlash(StripTrailingSlashes(p))
  }

  /** `path.join(parts...)`: the non-empty parts, separated by `/`, or `.`
      when there are none. */
  function JoinAll(parts: seq<string>): string
  {
    var kept := NonEmpty(parts);
    if kept == [] then "." else Intercalate(kept)
  }

  function NonEmpty(parts: seq<string>): (kept: seq<string>)
    ensures forall k :: 0 <= k < |kept| ==> kept[k] != ""
  {
    if parts == [] then []
    else (if parts[0] == "" then [] else [parts[0]]) + NonEmpty(parts[1..])
  }

  function Intercalate(parts: seq<string>): string
    requires parts != []
  {
    if |parts| == 1 then parts[0] else parts[0] + "/" + Intercalate(parts[1..])
  }

  /** Joining non-empty parts puts one `/` between each pair. */
  lemma Join2(a: string, b: string)
    requires a != "" && b != ""
    ensures JoinAll([a, b]) == a + "/" + b
  {
    assert [a, b][1..] == [b];
    assert [b][1..] == [];
    assert NonEmpty([b]) == [b];
    assert NonEmpty([a, b]) == [a, b];
    assert Intercalate([a, b]) == a + "/" + Intercalate([b]);
  }

  lemma Join3(a: string, b: string, c: string)
    requires a != "" && b != "" && c != ""
    ensures JoinAll([a, b, c]) == a + "/" + b + "/" + c
  {
    assert [a, b, c][1..] == [b, c];
    assert [b, c][1..] == [c];
    assert [c][1..] == [];
    assert NonEmpty([c]) == [c];
    assert NonEmpty([b, c]) == [b, c];
    assert NonEmpty([a, b, c]) == [a, b, c];
    assert Intercalate([a, b, c]) == a + "/" + Intercalate([b, c]);
  }

  // ---------------------------------------------------------------------------
  // dirname and basename undo a join

  lemma {:induction false} DirEndSkipsName(p: string, slash: int, i: int, matchedSlash: bool)
    requires 1 <= slash <= i < |p| && p[slash] == '/'
    requires forall k :: slash < k <= i ==> p[k] != '/'
    requires !matchedSlash || slash < i
    ensures DirEnd(p, i, matchedSlash) == slash
    decreases i
  {
    if i > slash {
      DirEndSkipsName(p, slash, i - 1, false);
    }
  }

  /** The directory of `d/n` is `d`, for a directory that does not end in a
      slash and a non-empty name without one. */
  lemma DirnameOfChild(d: string, n: string)
    requires d != "" && d[|d| - 1] != '/'
    requires n != "" && '/' !in n
    ensures Dirname(d + "/" + n) == d
  {
    var p := d + "/" + n;
    forall k | |d| < k <= |p| - 1 ensures p[k] != '/' {
      assert p[k] == n[k - |d| - 1];
    }
    if |d| == 1 {
      assert d[0] != '/';
    }
    DirEndSkipsName(p, |d|, |p| - 1, true);
    assert p[..|d|] == d;
  }

  lemma {:induction false} AfterLastSlashOfChild(d: string, n: string)
    requires '/' !in n
    ensures AfterLastSlash(d + "/" + n) == n
    decreases |n|
  {
    var p := d + "/" + n;
    if n == [] {
      assert p[|p| - 1] == '/';
    } else {
      assert p[..|p| - 1] == d + "/" + n[..|n| - 1];
      AfterLastSlashOfChild(d, n[..|n| - 1]);
      assert n == n[..|n| - 1] + [n[|n| - 1]];
    }
  }

  /** The base name of `d/n` is `n`, whatever `d` is, for a non-empty name
      without a slash. */
  lemma BasenameOfChild(d: string, n: string)
    requires n != "" && '/' !in n
    ensures Basename(d + "/" + n) == n
  {
    var p := d + "/" + n;
    assert p[|p| - 1] == n[|n| - 1];
    assert StripTrailingSlashes(p) == p;
    AfterLastSlashOfChild(d, n);
  }

  /** A path without a trailing slash keeps, as its base name, exactly the
      characters after its last `/`. */
  lemma {:induction false} BasenameIsLastSegment(p: string)
    requires p != [] && p[|p| - 1] != '/'
    ensures Basename(p) == AfterLastSlash(p)
    ensures |Basename(p)| <= |p| && Basename(p) == p[|p| - |Basename(p)|..]
    ensures |Basename(p)| < |p| ==> p[|p| - |Basename(p)| - 1] == '/'
  {
    assert StripTrailingSlashes(p) == p;
    AfterLastSlashSuffix(p);
  }

  lemma {:induction false} AfterLastSlashSuffix(p: string)
    ensures var r := AfterLastSlash(p);
      |r| <= |p| && r == p[|p| - |r|..] && (|r| < |p| ==> p[|p| - |r| - 1] == '/')
    decreases |p|
  {
    if p != [] && p[|p| - 1] != '/' {
      var q := p[..|p| - 1];
      AfterLastSlashSuffix(q);
      var r := AfterLastSlash(q);
      assert AfterLastSlash(p) == r + [p[|p| - 1]];
      assert q[|q| - |r|..] == r;
      assert p[|p| - |r| - 1..] == q[|q| - |r|..] + [p[|p| - 1]];
      if |r| + 1 < |p| {
        assert p[|p| - |r| - 2] == q[|q| - |r| - 1];
      }
    }
  }
}
