/** The string primitives of JavaScript and .NET that the extension relies on:
    `includes`, `replace` with a one-character pattern (first occurrence, or
    every occurrence with the `g` flag), `split(c)[0]`, `trim`, `toLowerCase`,
    `toString` on a non-negative integer and `padStart`. */
module Text {

  // ---------------------------------------------------------------------------
  // includes

  /** `s.includes(sub)`. */
  predicate Contains(s: string, sub: string)
    decreases |s|
  {
    (|sub| <= |s| && s[..|sub|] == sub) || (|s| > 0 && Contains(s[1..], sub))
  }

  /** `sub` occurs in `s` starting at index `i`. */
  ghost predicate OccursAt(s: string, sub: string, i: int)
  {
    0 <= i && i + |sub| <= |s| && s[i..i + |sub|] == sub
  }

  /** `Contains` means exactly: there is a position where `sub` occurs. */
  lemma {:induction false} ContainsIff(s: string, sub: string)
    ensures Contains(s, sub) <==> exists i :: OccursAt(s, sub, i)
    decreases |s|
  {
    if |sub| <= |s| && s[..|sub|] == sub {
      assert OccursAt(s, sub, 0);
    } else if |s| > 0 {
      ContainsIff(s[1..], sub);
      if Contains(s[1..], sub) {
        var i :| OccursAt(s[1..], sub, i);
        assert s[i + 1..i + 1 + |sub|] == s[1..][i..i + |sub|];
        assert OccursAt(s, sub, i + 1);
      }
      if i :| OccursAt(s, sub, i) {
        assert i != 0;
        assert s[1..][i - 1..i - 1 + |sub|] == s[i..i + |sub|];
        assert OccursAt(s[1..], sub, i - 1);
      }
    }
  }

  /** A string lacking one of the characters of `sub` does not contain it. */
  lemma MissingCharNotContained(s: string, sub: string, c: char)
    requires c in sub && c !in s
    ensures !Contains(s, sub)
  {
    ContainsIff(s, sub);
    if i :| OccursAt(s, sub, i) {
      assert false;
    }
  }

  /** A string contains each of its suffixes. */
  lemma ContainsSuffix(a: string, b: string)
    ensures Contains(a + b, b)
  {
    ContainsIff(a + b, b);
    assert (a + b)[|a|..|a| + |b|] == b;
    assert OccursAt(a + b, b, |a|);
  }

  /** A string contains every piece it is made of. */
  lemma ContainsInfix(a: string, b: string, c: string)
    ensures Contains(a + b + c, b)
  {
    ContainsIff(a + b + c, b);
    assert (a + b + c)[|a|..|a| + |b|] == b;
    assert OccursAt(a + b + c, b, |a|);
  }

  // ---------------------------------------------------------------------------
  // replace

  /** `s.replace(/c/g, by)`: every occurrence of `c` becomes `repl`. */
  function ReplaceAll(s: string, c: char, repl: string): string
  {
    if s == [] then [] else (if s[0] == c then repl else [s[0]]) + ReplaceAll(s[1..], c, repl)
  }

  lemma {:induction false} ReplaceAllAppend(a: string, b: string, c: char, repl: string)
    ensures ReplaceAll(a + b, c, repl) == ReplaceAll(a, c, repl) + ReplaceAll(b, c, repl)
    decreases |a|
  {
    if a != [] {
      assert (a + b)[1..] == a[1..] + b;
      ReplaceAllAppend(a[1..], b, c, repl);
    } else {
      assert a + b == b;
    }
  }

  /** `s.replace(/[S]/g, d)` for a character class `S` and a one-character
      replacement `d`. */
  function MapChars(s: string, chars: set<char>, d: char): (r: string)
    ensures |r| == |s|
  {
    if s == [] then [] else [if s[0] in chars then d else s[0]] + MapChars(s[1..], chars, d)
  }

  lemma {:induction false} MapCharsAt(s: string, chars: set<char>, d: char, i: int)
    requires 0 <= i < |s|
    ensures MapChars(s, chars, d)[i] == if s[i] in chars then d else s[i]
    decreases |s|
  {
    if i > 0 {
      MapCharsAt(s[1..], chars, d, i - 1);
    }
  }

  /** The index of the first `c` in `s`, or `|s|` when there is none. */
  function IndexOf(s: string, c: char): (k: nat)
    ensures k <= |s|
    ensures k < |s| ==> s[k] == c
    ensures forall j :: 0 <= j < k ==> s[j] != c
  {
    if s == [] then 0 else if s[0] == c then 0 else 1 + IndexOf(s[1..], c)
  }

  /** `s.replace(c, by)` with a string pattern: only the first occurrence. */
  function ReplaceFirst(s: string, c: char, d: char): string
  {
    if s == [] then [] else if s[0] == c then [d] + s[1..] else [s[0]] + ReplaceFirst(s[1..], c, d)
  }

  /** ReplaceFirst changes exactly the character at the first occurrence. */
  lemma {:induction false} ReplaceFirstAt(s: string, c: char, d: char)
    ensures var k := IndexOf(s, c);
      ReplaceFirst(s, c, d) == if k < |s| then s[..k] + [d] + s[k + 1..] else s
    decreases |s|
  {
    if s != [] && s[0] != c {
      ReplaceFirstAt(s[1..], c, d);
      var k := IndexOf(s[1..], c);
      if k < |s[1..]| {
        assert [s[0]] + (s[1..][..k] + [d] + s[1..][k + 1..]) == s[..k + 1] + [d] + s[k + 2..];
      } else {
        assert [s[0]] + s[1..] == s;
      }
    }
  }

  /** Mapping other characters does not move the first `c`. */
  lemma {:induction false} IndexOfMapChars(s: string, chars: set<char>, d: char, c: char)
    requires c !in chars && c != d
    ensures IndexOf(MapChars(s, chars, d), c) == IndexOf(s, c)
    decreases |s|
  {
    if s != [] {
      assert MapChars(s, chars, d)[1..] == MapChars(s[1..], chars, d);
      IndexOfMapChars(s[1..], chars, d, c);
    }
  }

  // ---------------------------------------------------------------------------
  // split

  /** `s.split(c)[0]`: everything before the first `c`. */
  function BeforeFirst(s: string, c: char): (r: string)
    ensures r == s[..IndexOf(s, c)]
  {
    if s == [] then [] else if s[0] == c then [] else [s[0]] + BeforeFirst(s[1..], c)
  }

  // ---------------------------------------------------------------------------
  // trim

  /** The characters `String.prototype.trim` removes: WhiteSpace and
      LineTerminator of ECMAScript section 12.2 and 12.3. */
  predicate IsJsSpace(c: char)
  {
    c == ' ' || c == '\t' || c == '\n' || c == '\r' || c == '\U{000B}' || c == '\U{000C}'
    || c == '\U{00A0}' || c == '\U{FEFF}' || c == '\U{1680}' || ('\U{2000}' <= c <= '\U{200A}')
    || c == '\U{2028}' || c == '\U{2029}' || c == '\U{202F}' || c == '\U{205F}' || c == '\U{3000}'
  }

  function TrimStart(s: string): (r: string)
    ensures r == [] || !IsJsSpace(r[0])
    ensures |r| <= |s| && r == s[|s| - |r|..]
    ensures forall k :: 0 <= k < |s| - |r| ==> IsJsSpace(s[k])
  {
    if s != [] && IsJsSpace(s[0]) then TrimStart(s[1..]) else s
  }

  function TrimEnd(s: string): (r: string)
    ensures r == [] || !IsJsSpace(r[|r| - 1])
    ensures |r| <= |s| && r == s[..|r|]
    ensures forall k :: |r| <= k < |s| ==> IsJsSpace(s[k])
  {
    if s != [] && IsJsSpace(s[|s| - 1]) then TrimEnd(s[..|s| - 1]) else s
  }

  /** `s.trim()`: `s` without its leading and trailing spaces. */
  function Trim(s: string): (r: string)
    ensures r == [] || (!IsJsSpace(r[0]) && !IsJsSpace(r[|r| - 1]))
  {
    TrimEnd(TrimStart(s))
  }

  /** A string with no space at either end survives `trim` of itself followed
      by any trailing spaces (a line ending written after it). */
  lemma {:induction false} TrimOfPadded(p: string, tail: string)
    requires p != [] && !IsJsSpace(p[0]) && !IsJsSpace(p[|p| - 1])
    requires forall k :: 0 <= k < |tail| ==> IsJsSpace(tail[k])
    ensures Trim(p + tail) == p
  {
    var s := p + tail;
    assert TrimStart(s) == s;
    TrimEndOfPadded(p, tail);
  }

  lemma {:induction false} TrimEndOfPadded(p: string, tail: string)
    requires p != [] && !IsJsSpace(p[|p| - 1])
    requires forall k :: 0 <= k < |tail| ==> IsJsSpace(tail[k])
    ensures TrimEnd(p + tail) == p
    decreases |tail|
  {
    if tail == [] {
      assert p + tail == p;
    } else {
      var s := p + tail;
      assert s[..|s| - 1] == p + tail[..|tail| - 1];
      TrimEndOfPadded(p, tail[..|tail| - 1]);
    }
  }

  // ---------------------------------------------------------------------------
  // toLowerCase

  predicate IsAsciiUpper(c: char)
  {
    'A' <= c <= 'Z'
  }

  function LowerChar(c: char): char
  {
    if IsAsciiUpper(c) then (c as int + 32) as char else c
  }

  function UpperChar(c: char): char
  {
    if 'a' <= c <= 'z' then (c as int - 32) as char else c
  }

  /** `s.toLowerCase()` (JavaScript) and `s.ToLower()` (.NET), on the ASCII letters. */
  function AsciiLower(s: string): (r: string)
    ensures |r| == |s|
    ensures forall i :: 0 <= i < |s| ==> r[i] == LowerChar(s[i])
  {
    if s == [] then [] else [LowerChar(s[0])] + AsciiLower(s[1..])
  }

  /** A string lowers to the lower-case word `w` exactly when it spells `w`
      in any mix of cases. */
  lemma {:induction false} LowerMatchesIff(s: string, w: string)
    requires forall i :: 0 <= i < |w| ==> !IsAsciiUpper(w[i])
    ensures AsciiLower(s) == w <==>
      |s| == |w| && forall i :: 0 <= i < |s| ==> s[i] == w[i] || s[i] == UpperChar(w[i])
  {
    if |s| == |w| && forall i :: 0 <= i < |s| ==> s[i] == w[i] || s[i] == UpperChar(w[i]) {
      forall i | 0 <= i < |s| ensures AsciiLower(s)[i] == w[i] {
        assert s[i] == w[i] || s[i] == UpperChar(w[i]);
      }
    }
    if AsciiLower(s) == w {
      forall i | 0 <= i < |s| ensures s[i] == w[i] || s[i] == UpperChar(w[i]) {
        assert LowerChar(s[i]) == w[i];
      }
    }
  }

  // ---------------------------------------------------------------------------
  // Number.prototype.toString and padStart

  function Digit(d: nat): char
    requires d < 10
  {
    ('0' as int + d) as char
  }

  /** `n.toString()` for a non-negative integer. */
  function DecimalString(n: nat): (r: string)
    ensures |r| >= 1
  {
    if n < 10 then [Digit(n)] else DecimalString(n / 10) + [Digit(n % 10)]
  }

  /** `s.padStart(width, c)`. */
  function PadStart(s: string, width: nat, c: char): (r: string)
    ensures |r| == if |s| >= width then |s| else width
    ensures r[|r| - |s|..] == s
  {
    if |s| >= width then s else seq(width - |s|, _ => c) + s
  }
}
