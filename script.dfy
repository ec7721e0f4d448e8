/** The decisions inside the two PowerShell scripts the extension runs on
    Windows and WSL: the probe (src/extension.ts:115-139) and the extractor
    (:220-275). The clipboard and the host's file operations are inputs; the
    scripts' results are modelled, not PowerShell itself.

    The extractor sets `$ErrorActionPreference = 'Stop'`, which makes every
    `Write-Error` a terminating error: inside a `try` it is caught by that
    `try`'s `catch`, and anywhere else it ends the script with the error on
    standard error and a non-zero exit status. */
module ClipboardScript {
  import opened Wrappers
  import opened Text
  import opened Naming

  /** An entry of the clipboard's file-drop list; `present` is what
      `Test-Path` says about it. */
  datatype DroppedFile = DroppedFile(path: string, present: bool)

  /** What the clipboard holds: `GetFileDropList()` and whether `GetImage()`
      returns an image. */
  datatype Clipboard = Clipboard(fileDrop: seq<DroppedFile>, hasImage: bool)

  /** The host's side of the extractor: whether `Add-Type` loads the two
      assemblies, and the error `Copy-Item` or `Image.Save` raises, if any. */
  datatype Host = Host(assembliesLoad: bool, writeError: Option<string>)

  /** What the extractor leaves behind: the path it writes to standard
      output, or the message of the error that ends it. */
  datatype ScriptResult = Wrote(path: string) | Died(error: string)

  const NoImageFound: string := "No image found in clipboard"

  const ImageExtensions: seq<string> :=
    [".png", ".jpg", ".jpeg", ".gif", ".bmp", ".webp", ".svg", ".ico", ".tiff", ".tif"]

  /** The characters that end a file name for `GetExtension` on Windows. */
  predicate IsSeparator(c: char)
  {
    c == '\\' || c == '/' || c == ':'
  }

  /** The scan of `GetExtension`, downwards from index `i`: the index of the
      last `.` of the file name, or -1. */
  function DotIndex(p: string, i: int): (k: int)
    requires -1 <= i < |p|
    ensures -1 <= k <= i
    ensures k >= 0 ==> p[k] == '.' && forall j :: k < j <= i ==> p[j] != '.' && !IsSeparator(p[j])
    decreases i + 1
  {
    if i < 0 then -1
    else if p[i] == '.' then i
    else if IsSeparator(p[i]) then -1
    else DotIndex(p, i - 1)
  }

  /** `[System.IO.Path]::GetExtension(p)`: from the last `.` of the file name
      to the end, or empty when there is no `.` or it is the last character. */
  function GetExtension(p: string): (ext: string)
    ensures ext == [] || (|ext| >= 2 && ext[0] == '.')
    ensures forall j :: 1 <= j < |ext| ==> ext[j] != '.' && !IsSeparator(ext[j])
    ensures |ext| <= |p| && ext == p[|p| - |ext|..]
  {
    var k := DotIndex(p, |p| - 1);
    if k < 0 || k == |p| - 1 then [] else p[k..]
  }

  /** `$imageExtensions -contains $extension`. */
  predicate IsImageExtension(ext: string)
  {
    ext in ImageExtensions
  }

  /** The lower-cased extension of the first dropped file, when there is one. */
  function DropExtension(clip: Clipboard): string
    requires clip.fileDrop != []
  {
    AsciiLower(GetExtension(clip.fileDrop[0].path))
  }

  /** The probe script: `true` when the first dropped file has an image
      extension, and otherwise when the clipboard holds an image. A dropped
      file that is not an image does not stop it from looking at the image. */
  function ProbeSaysImage(clip: Clipboard): bool
  {
    (clip.fileDrop != [] && IsImageExtension(DropExtension(clip))) || clip.hasImage
  }

  /** The name the extractor gives its copy; `date` is what `Get-Date
      -Format "yyyyMMdd_HHmmss_fff"` returned. */
  function CopyName(date: string, ext: string): string
  {
    Prefix + date + ext
  }

  /** A copy's name has a `/` only where the date or the extension had one. */
  lemma CopyNameHasNoSlash(date: string, ext: string)
    requires '/' !in date && '/' !in ext
    ensures '/' !in CopyName(date, ext)
  {
    assert '/' !in Prefix;
  }

  /** `"${escapedTempDir}/clipboard-image-$dateString$extension"`: `dir` is
      the directory text the script was built with. */
  function Destination(dir: string, name: string): string
  {
    dir + "/" + name
  }

  /** The extractor script. */
  function Extract(clip: Clipboard, host: Host, dir: string, date: string): ScriptResult
  {
    if !host.assembliesLoad then Died("Failed to load required .NET assemblies")
    else if clip.fileDrop != [] then
      var source := clip.fileDrop[0];
      if !source.present then Died("Source file not found: " + source.path)
      else if IsImageExtension(DropExtension(clip)) then
        match host.writeError
        case Some(e) => Died("Failed to copy file: " + e)
        case None => Wrote(Destination(dir, CopyName(date, DropExtension(clip))))
      else Died("Clipboard contains a non-image file: " + source.path)
    else if !clip.hasImage then
      // the Write-Error inside the try is caught and reported by its catch
      Died("Failed to save clipboard image: " + NoImageFound)
    else
      match host.writeError
      case Some(e) => Died("Failed to save clipboard image: " + e)
      case None => Wrote(Destination(dir, CopyName(date, ".png")))
  }

  // ---------------------------------------------------------------------------
  // The extension the drop list is judged by

  /** The extension of `stem.e` is `.e`, for a non-empty `e` without a dot or
      a separator, whatever the stem. */
  lemma GetExtensionOfName(stem: string, e: string)
    requires e != [] && forall j :: 0 <= j < |e| ==> e[j] != '.' && !IsSeparator(e[j])
    ensures GetExtension(stem + "." + e) == "." + e
  {
    var p := stem + "." + e;
    DotIndexFindsDot(p, |stem|, |p| - 1);
    assert p[|stem|..] == "." + e;
  }

  lemma {:induction false} DotIndexFindsDot(p: string, k: int, i: int)
    requires 0 <= k <= i < |p| && p[k] == '.'
    requires forall j :: k < j <= i ==> p[j] != '.' && !IsSeparator(p[j])
    ensures DotIndex(p, i) == k
    decreases i
  {
    if i > k {
      DotIndexFindsDot(p, k, i - 1);
    }
  }

  /** No allowed extension contains a `/`. */
  lemma ImageExtensionHasNoSlash(ext: string)
    requires IsImageExtension(ext)
    ensures '/' !in ext
  {
  }

  // ---------------------------------------------------------------------------
  // The rules of the two scripts

  /** A dropped file whose lower-cased extension is allowed is copied under
      that extension; the name has the date and nothing of the dropped file. */
  lemma ImageDropKeepsExtension(clip: Clipboard, host: Host, dir: string, date: string)
    requires host.assembliesLoad && host.writeError.None?
    requires clip.fileDrop != [] && clip.fileDrop[0].present
    requires IsImageExtension(AsciiLower(GetExtension(clip.fileDrop[0].path)))
    ensures Extract(clip, host, dir, date) ==
      Wrote(Destination(dir, CopyName(date, AsciiLower(GetExtension(clip.fileDrop[0].path)))))
  {
  }

  /** Lower-casing happens before the check: `PHOTO.JPG` is copied as `.jpg`. */
  lemma UpperCaseExtension(host: Host, dir: string, date: string)
    requires host.assembliesLoad && host.writeError.None?
    ensures Extract(Clipboard([DroppedFile("C:\\PHOTO.JPG", true)], false), host, dir, date) ==
      Wrote(Destination(dir, CopyName(date, ".jpg")))
  {
    GetExtensionOfName("C:\\PHOTO", "JPG");
    assert "C:\\PHOTO" + "." + "JPG" == "C:\\PHOTO.JPG";
    assert AsciiLower(".JPG") == ".jpg";
  }

  /** A dropped file that does not exist is an error, whatever else is on
      the clipboard. */
  lemma MissingDropIsError(clip: Clipboard, host: Host, dir: string, date: string)
    requires host.assembliesLoad
    requires clip.fileDrop != [] && !clip.fileDrop[0].present
    ensures Extract(clip, host, dir, date) == Died("Source file not found: " + clip.fileDrop[0].path)
  {
  }

  /** A dropped file that is not an image: the extractor fails, even when the
      clipboard also holds an image, while the probe falls through to the
      image check. */
  lemma NonImageDropDisagrees(clip: Clipboard, host: Host, dir: string, date: string)
    requires host.assembliesLoad
    requires clip.fileDrop != [] && clip.fileDrop[0].present && !IsImageExtension(DropExtension(clip))
    ensures Extract(clip, host, dir, date) == Died("Clipboard contains a non-image file: " + clip.fileDrop[0].path)
    ensures ProbeSaysImage(clip) == clip.hasImage
  {
  }

  /** With no file dropped, an in-memory image is saved as `.png`, and its
      absence is the "No image found in clipboard" error. */
  lemma InMemoryImage(clip: Clipboard, host: Host, dir: string, date: string)
    requires host.assembliesLoad && host.writeError.None? && clip.fileDrop == []
    ensures clip.hasImage ==> Extract(clip, host, dir, date) == Wrote(Destination(dir, CopyName(date, ".png")))
    ensures !clip.hasImage ==>
      Extract(clip, host, dir, date).Died? && Contains(Extract(clip, host, dir, date).error, NoImageFound)
  {
    ContainsSuffix("Failed to save clipboard image: ", NoImageFound);
  }

  /** Whenever the extractor writes a file the probe says `true`: the probe
      never blocks a paste the extractor would have made. */
  lemma ProbeCoversExtractor(clip: Clipboard, host: Host, dir: string, date: string)
    ensures Extract(clip, host, dir, date).Wrote? ==> ProbeSaysImage(clip)
  {
  }

  /** The converse fails: a dropped image file that is missing makes the
      probe say `true` and the extractor fail. */
  lemma ProbeOverApproximates(host: Host, dir: string, date: string)
    requires host.assembliesLoad
    ensures var clip := Clipboard([DroppedFile("a.png", false)], false);
      ProbeSaysImage(clip) && Extract(clip, host, dir, date).Died?
  {
    GetExtensionOfName("a", "png");
    assert "a" + "." + "png" == "a.png";
    assert AsciiLower(".png") == ".png";
    assert ImageExtensions[0] == ".png";
  }

  /** The extension the extractor writes under: the dropped file's,
      lower-cased, or `.png` for an in-memory image. */
  function WrittenExtension(clip: Clipboard): string
  {
    if clip.fileDrop != [] then DropExtension(clip) else ".png"
  }

  /** Every path the extractor writes is the directory, a `/`, and a name
      made of the prefix, the date and an allowed extension. */
  lemma WrittenPathShape(clip: Clipboard, host: Host, dir: string, date: string)
    requires Extract(clip, host, dir, date).Wrote?
    ensures IsImageExtension(WrittenExtension(clip))
    ensures Extract(clip, host, dir, date).path == Destination(dir, CopyName(date, WrittenExtension(clip)))
  {
    assert ".png" == ImageExtensions[0];
  }
}
