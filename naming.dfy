/** The name given to a saved image on Linux and macOS
    (src/extension.ts:73-75 and :197-199): the ISO-8601 timestamp with `:`
    and `.` turned into `-` and its first `T` into `_`, a three-digit
    millisecond suffix, and `.png`. The clock is an input: `iso` is what
    `new Date().toISOString()` returned and `ms` what `getMilliseconds()` did. */
module Naming {
  import opened Text

  const Prefix: string := "clipboard-image-"

  /** `iso.replace(/[:.]/g, '-').replace('T', '_')`. */
  function Rewritten(iso: string): string
  {
    ReplaceFirst(MapChars(iso, {':', '.'}, '-'), 'T', '_')
  }

  /** The rewritten string cut at its first `.` (`split('.')[0]`). */
  function Timestamp(iso: string): string
  {
    BeforeFirst(Rewritten(iso), '.')
  }

  /** `ms.toString().padStart(3, '0')`. */
  function MillisSuffix(ms: nat): string
  {
    PadStart(DecimalString(ms), 3, '0')
  }

  /** `clipboard-image-${timestamp}_${milliseconds}.png`. */
  function ImageFilename(iso: string, ms: nat): string
  {
    Prefix + Timestamp(iso) + "_" + MillisSuffix(ms) + ".png"
  }

  /** Character by character: every `:` and `.` becomes `-`, the first `T`
      becomes `_`, and every other character is kept, in place. */
  lemma {:induction false} RewrittenAt(iso: string)
    ensures |Rewritten(iso)| == |iso|
    ensures forall i :: 0 <= i < |iso| ==>
      Rewritten(iso)[i] == if iso[i] == ':' || iso[i] == '.' then '-' else if i == IndexOf(iso, 'T') then '_' else iso[i]
  {
    var m := MapChars(iso, {':', '.'}, '-');
    ReplaceFirstAt(m, 'T', '_');
    IndexOfMapChars(iso, {':', '.'}, '-', 'T');
    forall i | 0 <= i < |iso|
      ensures Rewritten(iso)[i] ==
        if iso[i] == ':' || iso[i] == '.' then '-' else if i == IndexOf(iso, 'T') then '_' else iso[i]
    {
      MapCharsAt(iso, {':', '.'}, '-', i);
    }
  }

  /** No `.` survives the rewrite, so the `split('.')[0]` that follows it
      changes nothing: the timestamp is the rewritten string itself. */
  lemma {:induction false} SplitIsNoOp(iso: string)
    ensures '.' !in Rewritten(iso) && ':' !in Rewritten(iso)
    ensures Timestamp(iso) == Rewritten(iso)
  {
    RewrittenAt(iso);
    var r := Rewritten(iso);
    assert forall i :: 0 <= i < |r| ==> r[i] != '.' && r[i] != ':';
    assert IndexOf(r, '.') == |r|;
  }

  /** For every millisecond value `getMilliseconds()` can return, the suffix
      is exactly three decimal digits, most significant first. */
  lemma {:induction false} MillisSuffixDigits(ms: nat)
    requires ms < 1000
    ensures MillisSuffix(ms) == [Digit(ms / 100), Digit(ms / 10 % 10), Digit(ms % 10)]
  {
    var d := DecimalString(ms);
    if ms >= 100 {
      var tens := ms / 10;
      assert 10 <= tens < 100 && tens / 10 == ms / 100 && tens % 10 == ms / 10 % 10;
      assert DecimalString(tens) == [Digit(tens / 10)] + [Digit(tens % 10)];
      assert d == DecimalString(tens) + [Digit(ms % 10)];
      assert |d| == 3;
    } else if ms >= 10 {
      assert ms / 10 < 10 && ms / 10 % 10 == ms / 10 && ms / 100 == 0;
      assert DecimalString(ms / 10) == [Digit(ms / 10)];
      assert d == [Digit(ms / 10)] + [Digit(ms % 10)];
      assert MillisSuffix(ms) == seq(1, _ => '0') + d;
      assert seq(1, _ => '0') == [Digit(0)];
    } else {
      assert ms / 100 == 0 && ms / 10 % 10 == 0 && ms % 10 == ms;
      assert d == [Digit(ms)];
      assert MillisSuffix(ms) == seq(2, _ => '0') + d;
      assert seq(2, _ => '0') == [Digit(0), Digit(0)];
    }
  }

  /** The suffix never loses information: distinct millisecond values give
      distinct suffixes. */
  lemma {:induction false} MillisSuffixInjective(a: nat, b: nat)
    requires a < 1000 && b < 1000 && MillisSuffix(a) == MillisSuffix(b)
    ensures a == b
  {
    MillisSuffixDigits(a);
    MillisSuffixDigits(b);
    assert a / 100 == b / 100 && a / 10 % 10 == b / 10 % 10 && a % 10 == b % 10;
  }

  /** Two names taken from the same timestamp differ whenever their
      millisecond values differ. */
  lemma {:induction false} FilenamesDistinctPerMillisecond(iso: string, a: nat, b: nat)
    requires a < 1000 && b < 1000 && a != b
    ensures ImageFilename(iso, a) != ImageFilename(iso, b)
  {
    MillisSuffixDigits(a);
    MillisSuffixDigits(b);
    var head := Prefix + Timestamp(iso) + "_";
    if ImageFilename(iso, a) == ImageFilename(iso, b) {
      assert ImageFilename(iso, a)[|head|..|head| + 3] == MillisSuffix(a);
      assert ImageFilename(iso, b)[|head|..|head| + 3] == MillisSuffix(b);
      MillisSuffixInjective(a, b);
    }
  }

  /** The name has the fixed prefix and suffix, and contains a `/` only when
      the timestamp string itself did. */
  lemma {:induction false} FilenameShape(iso: string, ms: nat)
    requires ms < 1000 && '/' !in iso
    ensures var name := ImageFilename(iso, ms);
      && name[..|Prefix|] == Prefix
      && name[|name| - 4..] == ".png"
      && |name| == |Prefix| + |iso| + 8
      && '/' !in name
  {
    SplitIsNoOp(iso);
    RewrittenAt(iso);
    MillisSuffixDigits(ms);
    var ts := Timestamp(iso);
    assert forall i :: 0 <= i < |ts| ==> ts[i] != '/';
  }
}
