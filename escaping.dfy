/** How the extension escapes a PowerShell script before handing it to a
    shell inside double quotes (src/extension.ts:143-150 and :279-286), and
    how it doubles the backslashes of the Windows temp directory (:218). */
module Escaping {
  import opened Text

  /** Each character of `special` gets a backslash in front; nothing else changes. */
  function Escape(s: string, special: set<char>): string
  {
    if s == [] then [] else (if s[0] in special then ['\\', s[0]] else [s[0]]) + Escape(s[1..], special)
  }

  /** The number of characters of `s` that belong to `chars`. */
  function CountIn(s: string, chars: set<char>): nat
  {
    if s == [] then 0 else (if s[0] in chars then 1 else 0) + CountIn(s[1..], chars)
  }

  /** Reads an escaped string back: a backslash followed by a special
      character stands for that character. */
  function Unescape(t: string, special: set<char>): string
    decreases |t|
  {
    if t == [] then []
    else if |t| >= 2 && t[0] == '\\' && t[1] in special then [t[1]] + Unescape(t[2..], special)
    else [t[0]] + Unescape(t[1..], special)
  }

  /** The WSL chain: `$`, then `"`, then a backtick, each replaced by itself
      preceded by a backslash. */
  function EscapeForWsl(script: string): string
  {
    ReplaceAll(ReplaceAll(ReplaceAll(script, '$', "\\$"), '"', "\\\""), '`', "\\`")
  }

  /** The native Windows form: only `"` is escaped. */
  function EscapeForWindows(script: string): string
  {
    ReplaceAll(script, '"', "\\\"")
  }

  /** `windowsTempDir.replace(/\\/g, '\\\\')`. */
  function DoubleBackslashes(dir: string): string
  {
    ReplaceAll(dir, '\\', "\\\\")
  }

  const WslSpecials: set<char> := {'$', '"', '`'}

  // ---------------------------------------------------------------------------
  // The replace chains are one-pass escapes

  /** Escaping one more character with a further `replace` over an already
      escaped string is the same as escaping both sets in one pass: the
      backslashes the first pass inserted are never themselves touched. */
  lemma {:induction false} ReplaceAfterEscape(s: string, special: set<char>, c: char)
    requires c !in special && c != '\\'
    ensures ReplaceAll(Escape(s, special), c, ['\\', c]) == Escape(s, special + {c})
    decreases |s|
  {
    if s != [] {
      var block := if s[0] in special then ['\\', s[0]] else [s[0]];
      ReplaceAllAppend(block, Escape(s[1..], special), c, ['\\', c]);
      ReplaceAfterEscape(s[1..], special, c);
      if s[0] in special {
        assert ReplaceAll(block, c, ['\\', c]) == block by {
          assert block[1..] == [s[0]];
          assert ReplaceAll([s[0]], c, ['\\', c]) == [s[0]];
        }
      }
    }
  }

  /** A single `replace(/c/g, '\\' + c)` is the one-pass escape of `{c}`. */
  lemma {:induction false} ReplaceIsEscape(s: string, c: char)
    ensures ReplaceAll(s, c, ['\\', c]) == Escape(s, {c})
    decreases |s|
  {
    if s != [] {
      ReplaceIsEscape(s[1..], c);
    }
  }

  /** The three-step WSL chain escapes exactly `$`, `"` and the backtick; the
      order of the three steps does not matter. */
  lemma WslChainIsEscape(script: string)
    ensures EscapeForWsl(script) == Escape(script, WslSpecials)
  {
    var step1 := ReplaceAll(script, '$', "\\$");
    var step2 := ReplaceAll(step1, '"', "\\\"");
    ReplaceIsEscape(script, '$');
    assert step1 == Escape(script, {'$'});
    ReplaceAfterEscape(script, {'$'}, '"');
    assert {'$'} + {'"'} == {'$', '"'};
    assert step2 == Escape(script, {'$', '"'});
    ReplaceAfterEscape(script, {'$', '"'}, '`');
    assert {'$', '"'} + {'`'} == WslSpecials;
  }

  lemma WindowsIsEscape(script: string)
    ensures EscapeForWindows(script) == Escape(script, {'"'})
  {
    ReplaceIsEscape(script, '"');
  }

  lemma DoubleIsEscape(dir: string)
    ensures DoubleBackslashes(dir) == Escape(dir, {'\\'})
  {
    ReplaceIsEscape(dir, '\\');
  }

  // ---------------------------------------------------------------------------
  // What the one-pass escape does

  /** The output grows by exactly one character per escaped character. */
  lemma {:induction false} EscapeLength(s: string, special: set<char>)
    ensures |Escape(s, special)| == |s| + CountIn(s, special)
    decreases |s|
  {
    if s != [] {
      EscapeLength(s[1..], special);
    }
  }

  /** Nothing but the added backslashes changes: reading back gives the input. */
  lemma {:induction false} UnescapeEscape(s: string, special: set<char>)
    ensures Unescape(Escape(s, special), special) == s
    decreases |s|
  {
    if s != [] {
      var rest := Escape(s[1..], special);
      UnescapeEscape(s[1..], special);
      if s[0] in special {
        var t := ['\\', s[0]] + rest;
        assert t[2..] == rest;
      } else {
        var t := [s[0]] + rest;
        assert t[1..] == rest;
        if s[0] == '\\' && |t| >= 2 {
          assert t[1] == rest[0];
          assert rest[0] !in special by {
            assert s[1..] != [];
            assert rest[0] == '\\' || rest[0] == s[1..][0];
          }
        }
      }
    }
  }

  /** When the backslash itself is not special, every special character in
      the output is preceded by a backslash. */
  lemma {:induction false} EscapedSpecialsArePrefixed(s: string, special: set<char>, i: int)
    requires '\\' !in special
    requires 0 <= i < |Escape(s, special)| && Escape(s, special)[i] in special
    ensures i > 0 && Escape(s, special)[i - 1] == '\\'
    decreases |s|
  {
    var block := if s[0] in special then ['\\', s[0]] else [s[0]];
    var rest := Escape(s[1..], special);
    assert Escape(s, special) == block + rest;
    if i >= |block| {
      assert rest[i - |block|] == Escape(s, special)[i];
      EscapedSpecialsArePrefixed(s[1..], special, i - |block|);
    }
  }

  // ---------------------------------------------------------------------------
  // The three escapes of the source, stated on their own terms

  /** WSL: `|out| = |in|` plus the number of `$`, `"` and backticks, and
      reading the output back gives the script. */
  lemma WslEscape(script: string)
    ensures |EscapeForWsl(script)| == |script| + CountIn(script, WslSpecials)
    ensures Unescape(EscapeForWsl(script), WslSpecials) == script
  {
    WslChainIsEscape(script);
    EscapeLength(script, WslSpecials);
    UnescapeEscape(script, WslSpecials);
  }

  /** WSL: every `$`, `"` or backtick in the output follows a backslash. */
  lemma WslEscapePrefixed(script: string, i: int)
    requires 0 <= i < |EscapeForWsl(script)| && EscapeForWsl(script)[i] in WslSpecials
    ensures i > 0 && EscapeForWsl(script)[i - 1] == '\\'
  {
    WslChainIsEscape(script);
    EscapedSpecialsArePrefixed(script, WslSpecials, i);
  }

  /** Windows: only `"` is escaped; `$` and backticks pass through. */
  lemma WindowsEscape(script: string)
    ensures |EscapeForWindows(script)| == |script| + CountIn(script, {'"'})
    ensures Unescape(EscapeForWindows(script), {'"'}) == script
  {
    WindowsIsEscape(script);
    EscapeLength(script, {'"'});
    UnescapeEscape(script, {'"'});
  }

  /** Each backslash of the directory is doubled and nothing else changes. */
  lemma DoubledDirectory(dir: string)
    ensures |DoubleBackslashes(dir)| == |dir| + CountIn(dir, {'\\'})
    ensures Unescape(DoubleBackslashes(dir), {'\\'}) == dir
  {
    DoubleIsEscape(dir);
    EscapeLength(dir, {'\\'});
    UnescapeEscape(dir, {'\\'});
  }
}
