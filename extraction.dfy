/** The TypeScript side of the clipboard probe and of the extractor for
    Windows, WSL and macOS (`checkClipboardHasImage`, src/extension.ts:111-159,
    and `getImageFromClipboard`, :180-298), and the WSL path reconciliation
    done by the command handler (:326-336). The Linux extractor changes the
    file system and lives with the file store. */
module Extraction {
  import opened Wrappers
  import opened Text
  import opened Exec
  import opened Paths
  import opened Escaping
  import opened Platform
  import opened Naming
  import ClipboardScript

  /** `path.join(workspaceRoot, 'temp')`. */
  function TempDir(root: string): string
  {
    JoinAll([root, "temp"])
  }

  /** The shell command that runs a PowerShell script: `powershell.exe` from
      WSL with `$`, `"` and backticks escaped, `powershell` otherwise with
      only `"` escaped. */
  function PowerShellCommand(platform: Platform, script: string): string
  {
    if platform == Wsl then "powershell.exe -NoProfile -Command \"" + EscapeForWsl(script) + "\""
    else "powershell -NoProfile -Command \"" + EscapeForWindows(script) + "\""
  }

  /** The quoted part of the command reads back as the script, on each
      platform by its own escape set. */
  lemma CommandCarriesScript(platform: Platform, script: string)
    ensures var head := if platform == Wsl then "powershell.exe -NoProfile -Command \"" else "powershell -NoProfile -Command \"";
      var body := PowerShellCommand(platform, script)[|head|..|PowerShellCommand(platform, script)| - 1];
      && PowerShellCommand(platform, script) == head + body + "\""
      && Unescape(body, if platform == Wsl then WslSpecials else {'"'}) == script
  {
    WslEscape(script);
    WindowsEscape(script);
  }

  // ---------------------------------------------------------------------------
  // The probe

  /** `checkClipboardHasImage(platform)`: Linux asks its session's helper;
      every other platform (macOS included) runs the PowerShell probe, whose
      outcome is `psProbe`, and trusts a trimmed output of exactly `true`. */
  function ClipboardHasImage(platform: Platform, env: Env, loginctl: Outcome,
                             listTypes: Outcome, targets: Outcome, psProbe: Outcome): bool
  {
    if platform == Linux then LinuxHasImage(env, loginctl, listTypes, targets)
    else match psProbe
      case Ran(out, _) => Trim(out) == "true"
      case Failed(_) => false
  }

  /** What the probe script prints: `Write-Output` adds a line ending. */
  function ProbeOutput(verdict: bool): string
  {
    (if verdict then "true" else "false") + "\r\n"
  }

  /** Off Linux, the probe's verdict is the script's verdict when the script
      ran, and false when PowerShell could not be run at all. */
  lemma ProbeReadsScript(platform: Platform, env: Env, loginctl: Outcome, listTypes: Outcome,
                         targets: Outcome, clip: ClipboardScript.Clipboard, err: string, message: string)
    requires platform != Linux
    ensures ClipboardHasImage(platform, env, loginctl, listTypes, targets,
              Ran(ProbeOutput(ClipboardScript.ProbeSaysImage(clip)), err)) == ClipboardScript.ProbeSaysImage(clip)
    ensures !ClipboardHasImage(platform, env, loginctl, listTypes, targets, Failed(message))
  {
    TrimProbeOutput(ClipboardScript.ProbeSaysImage(clip));
  }

  lemma TrimProbeOutput(verdict: bool)
    ensures Trim(ProbeOutput(verdict)) == if verdict then "true" else "false"
  {
    TrimOfPadded(if verdict then "true" else "false", "\r\n");
  }

  /** The probe's test is on the trimmed output: surrounding spaces do not
      matter, anything else than `true` is false. */
  lemma ProbeVerdictIsTrimmedTrue(platform: Platform, env: Env, loginctl: Outcome,
                                  listTypes: Outcome, targets: Outcome, out: string, err: string)
    requires platform != Linux
    ensures ClipboardHasImage(platform, env, loginctl, listTypes, targets, Ran(out, err)) <==> Trim(out) == "true"
  {
  }

  // ---------------------------------------------------------------------------
  // The extractor off Linux

  /** The end of `getImageFromClipboard` on Windows and WSL: a rejected
      `exec` is its error, anything on standard error is an error, and
      otherwise the trimmed standard output is the path. */
  function ScriptImagePath(psExtract: Outcome): Result<string>
  {
    match psExtract
    case Failed(m) => Err(m)
    case Ran(out, err) => if err != "" then Err(Trim(err)) else Ok(Trim(out))
  }

  /** How `exec` reports a run of the extractor script embedded in the
      command line: a written path is printed by `Write-Output` with its line
      ending and the script exits with status 0; a script that dies writes
      its error to standard error and exits with status 1, so `exec`
      rejects. */
  function ScriptOutcome(platform: Platform, script: string, result: ClipboardScript.ScriptResult): Outcome
  {
    match result
    case Wrote(p) => Ran(p + "\r\n", "")
    case Died(e) => Failed(CommandFailed(PowerShellCommand(platform, script), e + "\r\n"))
  }

  /** A path the extractor script wrote comes back unchanged. */
  lemma ScriptPathComesBack(platform: Platform, script: string, clip: ClipboardScript.Clipboard,
                            host: ClipboardScript.Host, dir: string, date: string)
    requires dir == "" || !IsJsSpace(dir[0])
    requires ClipboardScript.Extract(clip, host, dir, date).Wrote?
    ensures var p := ClipboardScript.Extract(clip, host, dir, date).path;
      ScriptImagePath(ScriptOutcome(platform, script, ClipboardScript.Extract(clip, host, dir, date))) == Ok(p)
  {
    var p := ClipboardScript.Extract(clip, host, dir, date).path;
    ClipboardScript.WrittenPathShape(clip, host, dir, date);
    var ext := ClipboardScript.WrittenExtension(clip);
    ImageExtensionEndsInLetter(ext);
    PathEnds(dir, Prefix + date, ext);
    TrimOfPadded(p, "\r\n");
  }

  /** A script that dies never reaches the standard-error test of
      src/extension.ts:293-295: its non-zero exit makes `exec` reject, and
      the error is Node's "Command failed" message, which carries the
      command line and, after it, the script's own error. */
  lemma ScriptErrorIsRejection(platform: Platform, script: string, clip: ClipboardScript.Clipboard,
                               host: ClipboardScript.Host, dir: string, date: string)
    requires ClipboardScript.Extract(clip, host, dir, date).Died?
    ensures var e := ClipboardScript.Extract(clip, host, dir, date).error;
      var r := ScriptImagePath(ScriptOutcome(platform, script, ClipboardScript.Extract(clip, host, dir, date)));
      && r.Err?
      && r.msg == CommandFailed(PowerShellCommand(platform, script), e + "\r\n")
      && r.msg[..16] == "Command failed: "
      && Contains(r.msg, e)
  {
    var e := ClipboardScript.Extract(clip, host, dir, date).error;
    var command := PowerShellCommand(platform, script);
    var m := CommandFailed(command, e + "\r\n");
    assert m == ("Command failed: " + command + "\n") + e + "\r\n";
    ContainsInfix("Command failed: " + command + "\n", e, "\r\n");
  }

  lemma PathEnds(dir: string, stem: string, ext: string)
    requires ext != [] && 'a' <= ext[|ext| - 1] <= 'z'
    requires dir == "" || !IsJsSpace(dir[0])
    ensures var p := dir + "/" + (stem + ext);
      p != [] && !IsJsSpace(p[0]) && !IsJsSpace(p[|p| - 1])
  {
    var p := dir + "/" + (stem + ext);
    assert p[|p| - 1] == ext[|ext| - 1];
    assert p[0] == if dir == "" then '/' else dir[0];
  }

  lemma ImageExtensionEndsInLetter(ext: string)
    requires ClipboardScript.IsImageExtension(ext)
    ensures |ext| > 0 && 'a' <= ext[|ext| - 1] <= 'z'
  {
  }

  /** The macOS branch (src/extension.ts:196-208): `pngpaste` writes to
      `temp/<name>`; any failure becomes one fixed message. */
  function MacosImagePath(tempDir: string, iso: string, ms: nat, pngpaste: Outcome): (r: Result<string>)
    ensures pngpaste.Ran? <==> r.Ok?
  {
    match pngpaste
    case Ran(_, _) => Ok(JoinAll([tempDir, ImageFilename(iso, ms)]))
    case Failed(_) => Err(MacosFailure)
  }

  const MacosFailure: string := "No image found in clipboard. Make sure pngpaste is installed: brew install pngpaste"

  /** The macOS file goes into the temp directory under the generated name. */
  lemma MacosPathInTemp(root: string, iso: string, ms: nat, out: string, err: string)
    requires root != ""
    ensures MacosImagePath(TempDir(root), iso, ms, Ran(out, err)) == Ok(root + "/temp/" + ImageFilename(iso, ms))
  {
    Join2(root, "temp");
    var name := ImageFilename(iso, ms);
    assert name[..|Prefix|] == Prefix;
    Join2(TempDir(root), name);
    assert root + "/" + "temp" + "/" + name == root + "/temp/" + name;
  }

  // ---------------------------------------------------------------------------
  // WSL path reconciliation

  /** On WSL the returned Windows path is not used: its last `/`-separated
      segment is re-joined onto `<workspaceRoot>/temp`. */
  function WslFinalPath(root: string, returned: string): string
  {
    JoinAll([root, "temp", Basename(returned)])
  }

  /** The path the handler goes on to validate. */
  function FinalPath(platform: Platform, root: string, imagePath: string): string
  {
    if platform == Wsl then WslFinalPath(root, imagePath) else imagePath
  }

  /** The Windows directory in front of the last `/` is discarded: any two
      returned paths that end in the same name reconcile to the same place. */
  lemma ReconcileKeepsName(root: string, winDir: string, name: string)
    requires root != "" && name != "" && '/' !in name
    ensures WslFinalPath(root, winDir + "/" + name) == root + "/temp/" + name
  {
    BasenameOfChild(winDir, name);
    Join3(root, "temp", name);
  }

  /** What the extractor script writes reconciles to
      `<workspaceRoot>/temp/clipboard-image-<date><ext>`, whatever directory
      text the script was given, provided the date has no `/`. */
  lemma ReconcileScriptOutput(root: string, clip: ClipboardScript.Clipboard,
                              host: ClipboardScript.Host, dir: string, date: string)
    requires root != "" && '/' !in date
    requires ClipboardScript.Extract(clip, host, dir, date).Wrote?
    ensures var name := ClipboardScript.CopyName(date, ClipboardScript.WrittenExtension(clip));
      WslFinalPath(root, ClipboardScript.Extract(clip, host, dir, date).path) == root + "/temp/" + name
  {
    ClipboardScript.WrittenPathShape(clip, host, dir, date);
    var ext := ClipboardScript.WrittenExtension(clip);
    ClipboardScript.ImageExtensionHasNoSlash(ext);
    ClipboardScript.CopyNameHasNoSlash(date, ext);
    var name := ClipboardScript.CopyName(date, ext);
    assert name != [] by {
      assert |name| >= |Prefix|;
    }
    ReconcileKeepsName(root, dir, name);
  }

  /** A clean run whose output is empty (or only slashes) reconciles to
      the temp directory itself. */
  lemma ReconcileEmptyOutput(root: string, slashes: nat)
    requires root != ""
    ensures WslFinalPath(root, seq(slashes, _ => '/')) == TempDir(root)
  {
    var p := seq(slashes, _ => '/');
    SlashesStripToEmpty(slashes);
    assert [root, "temp", ""][1..] == ["temp", ""];
    assert ["temp", ""][1..] == [""];
    assert [""][1..] == [];
    assert NonEmpty([""]) == [];
    assert [root, "temp"][1..] == ["temp"];
    assert ["temp"][1..] == [];
    assert NonEmpty(["temp"]) == ["temp"];
    assert NonEmpty(["temp", ""]) == ["temp"];
  }

  lemma {:induction false} SlashesStripToEmpty(slashes: nat)
    ensures Basename(seq(slashes, _ => '/')) == ""
  {
    var p := seq(slashes, _ => '/');
    StripAllSlashes(slashes);
  }

  lemma {:induction false} StripAllSlashes(slashes: nat)
    ensures StripTrailingSlashes(seq(slashes, _ => '/')) == ""
    decreases slashes
  {
    if slashes > 0 {
      var p := seq(slashes, _ => '/');
      assert p[..|p| - 1] == seq(slashes - 1, _ => '/');
      StripAllSlashes(slashes - 1);
    }
  }

  /** A returned path with no `/` at all is taken whole as the name: the
      reconciliation depends on the `/` the script itself puts in front of
      the name. */
  lemma ReconcileWithoutSlash(root: string, returned: string)
    requires root != "" && returned != "" && '/' !in returned
    ensures WslFinalPath(root, returned) == root + "/temp/" + returned
  {
    BasenameIsLastSegment(returned);
    Join3(root, "temp", returned);
  }
}
