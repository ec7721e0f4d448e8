/** The file side of the extension: the Linux save (`saveImageLinux`,
    src/extension.ts:71-108), the size ladder that checks the saved file
    (:339-361), and the command handler that strings the whole paste
    together (:303-374). The file system is a map from path to file size;
    `fs.remove` deletes a key.

    On Linux the extension's own shell redirect (`> "<path>"`) creates the
    target file before the helper runs, so that write is part of the model.
    On Windows, WSL and macOS the file is written by a foreign program, and
    the store handed to the handler is the one after that program ran. */
module Store {
  import opened Wrappers
  import opened Text
  import opened Exec
  import opened Paths
  import opened Platform
  import opened Naming
  import opened Extraction

  type Files = map<string, nat>

  /** `a` and `b` agree on every path other than `p`. */
  ghost predicate AgreeExcept(a: Files, b: Files, p: string)
  {
    forall q :: q != p ==> (q in a <==> q in b) && (q in a ==> a[q] == b[q])
  }

  // ---------------------------------------------------------------------------
  // The size ladder

  const MinSize: nat := 1024
  const MaxSize: nat := 50 * 1024 * 1024

  datatype Verdict = NotCreated | Empty | TooSmall | TooLarge | Accepted

  /** The rung a file of the given size (or no file) falls on. */
  function Classify(size: Option<nat>): Verdict
  {
    if size.None? then NotCreated
    else if size.value == 0 then Empty
    else if size.value < MinSize then TooSmall
    else if size.value > MaxSize then TooLarge
    else Accepted
  }

  /** The error each rejecting rung throws. */
  function RejectionMessage(v: Verdict): string
  {
    match v
    case NotCreated => "Image file was not created successfully"
    case Empty => "Image file is empty"
    case TooSmall => "Image file is too small (likely corrupted)"
    case TooLarge => "Image file is too large (>50MB)"
    case Accepted => ""
  }

  function SizeOf(files: Files, path: string): Option<nat>
  {
    if path in files then Some(files[path]) else None
  }

  /** The validator: the verdict, and the store after it. Every rung that
      rejects an existing file removes it. */
  function Validation(files: Files, path: string): (Verdict, Files)
  {
    var v := Classify(SizeOf(files, path));
    (v, if v == NotCreated || v == Accepted then files else files - {path})
  }

  /** `Math.round(size / 1024)`, in integers. */
  function SizeKB(size: nat): nat
  {
    (size + 512) / 1024
  }

  /** The rungs, in the source's order: a missing file is reported and
      nothing is deleted; an empty, a too small and a too large file are
      deleted; one of 1024 to 52428800 bytes is accepted and kept. */
  lemma ValidationLadder(files: Files, path: string)
    ensures var (v, out) := Validation(files, path);
      && (path !in files ==> v == NotCreated && out == files)
      && (path in files && files[path] == 0 ==> v == Empty && out == files - {path})
      && (path in files && 0 < files[path] < 1024 ==> v == TooSmall && out == files - {path})
      && (path in files && files[path] > 52428800 ==> v == TooLarge && out == files - {path})
      && (path in files && 1024 <= files[path] <= 52428800 ==> v == Accepted && out == files)
  {
  }

  /** Only the checked path can go, the validator never adds a file, and the
      file survives exactly when it was accepted or was never there. */
  lemma ValidationTouchesOnlyPath(files: Files, path: string)
    ensures var (v, out) := Validation(files, path);
      && AgreeExcept(files, out, path)
      && out.Keys <= files.Keys
      && (path in out <==> v == Accepted)
      && (path in out ==> out[path] == files[path])
  {
  }

  /** `SizeKB` is the nearest whole number of KiB, halves rounded up. */
  lemma SizeKBIsNearest(size: nat)
    ensures 1024 * SizeKB(size) <= size + 512 < 1024 * SizeKB(size) + 1024
  {
    var q := (size + 512) / 1024;
    assert size + 512 == 1024 * q + (size + 512) % 1024;
  }

  /** An accepted file is reported as 1 to 51200 KB. */
  lemma AcceptedSizeKB(size: nat)
    requires Classify(Some(size)) == Accepted
    ensures 1 <= SizeKB(size) <= 51200
  {
    SizeKBIsNearest(size);
  }

  // ---------------------------------------------------------------------------
  // The Linux save

  const SaveFailedPrefix: string := "Failed to save clipboard image: "
  const UnknownSessionMessage: string := "Unknown session type. " + "Linux clipboard " + "requires X11 or Wayland."
  const NoImageInClipboard: string := "No image in clipboard"
  const WaylandHint: string := "wl-clipboard not installed. Run: sudo apt-get install wl-clipboard"
  const XclipHint: string := "xclip not installed. Run: sudo apt-get install xclip"

  /** The message of the error `fs.stat` raises for a missing file. */
  function StatMissing(path: string): string
  {
    "ENOENT: no such file or directory, stat '" + path + "'"
  }

  /** `path.join(path.dirname(tempDir), filename)`: the directory the
      caller passes is stripped of its last segment. */
  function LinuxTarget(tempDir: string, iso: string, ms: nat): string
  {
    JoinAll([Dirname(tempDir), ImageFilename(iso, ms)])
  }

  /** The `catch` of `saveImageLinux`: a missing helper becomes the
      install hint of the session's tool, anything else is wrapped; an
      empty message is shown as `String(error)`, that is `Error`. */
  function LinuxFailure(session: Session, message: string): string
  {
    if Contains(message, "command not found") then
      (if session == Wayland then WaylandHint else XclipHint)
    else SaveFailedPrefix + (if message == "" then "Error" else message)
  }

  /** `saveImageLinux(tempDir)`. `paste` is the outcome of the session's
      helper (`wl-paste` or `xclip`) and `written` the size of the file at
      the target once the command line has run (`None` when there is none,
      as when the shell could not create it). */
  function LinuxSave(files: Files, tempDir: string, env: Env, loginctl: Outcome,
                     paste: Outcome, written: Option<nat>, iso: string, ms: nat): (Result<string>, Files)
  {
    var session := LinuxSessionType(env, loginctl);
    var full := LinuxTarget(tempDir, iso, ms);
    if session == Unknown then (Err(LinuxFailure(session, UnknownSessionMessage)), files)
    else
      var after := if written.Some? then files[full := written.value] else files - {full};
      match paste
      case Failed(m) => (Err(LinuxFailure(session, m)), after)
      case Ran(_, _) =>
        if full !in after then (Err(LinuxFailure(session, StatMissing(full))), after)
        else if after[full] == 0 then (Err(LinuxFailure(session, NoImageInClipboard)), after - {full})
        else (Ok(full), after)
  }

  /** A message without an `f` cannot hold "command not found" and is
      wrapped as it is. */
  lemma PlainFailure(session: Session, message: string)
    requires message != "" && 'f' !in message
    ensures LinuxFailure(session, message) == SaveFailedPrefix + message
  {
    assert 'f' in "command not found";
    MissingCharNotContained(message, "command not found", 'f');
  }

  lemma NoImageFailure(session: Session)
    ensures LinuxFailure(session, NoImageInClipboard) == SaveFailedPrefix + NoImageInClipboard
  {
    PlainFailure(session, NoImageInClipboard);
  }

  /** An unknown session is an error before any helper runs: the store is
      untouched and neither the helper's outcome nor its output matters. */
  lemma LinuxUnknownSession(files: Files, tempDir: string, env: Env, loginctl: Outcome,
                            paste: Outcome, written: Option<nat>, iso: string, ms: nat)
    requires LinuxSessionType(env, loginctl) == Unknown
    ensures LinuxSave(files, tempDir, env, loginctl, paste, written, iso, ms) ==
      (Err(SaveFailedPrefix + UnknownSessionMessage), files)
  {
    PlainFailure(Unknown, UnknownSessionMessage);
  }

  /** The Linux file lands in the workspace root, next to `temp` rather
      than inside it. */
  lemma LinuxTargetInRoot(root: string, iso: string, ms: nat)
    requires root != "" && root[|root| - 1] != '/'
    ensures LinuxTarget(TempDir(root), iso, ms) == root + "/" + ImageFilename(iso, ms)
  {
    Join2(root, "temp");
    DirnameOfChild(root, "temp");
    var name := ImageFilename(iso, ms);
    assert name[..|Prefix|] == Prefix;
    Join2(root, name);
  }

  /** The save succeeds exactly when the session is known, the helper ran
      and it left a non-empty file; the path returned is the target, and the
      target is the only path that can change. */
  lemma LinuxSaveOutcome(files: Files, tempDir: string, env: Env, loginctl: Outcome,
                         paste: Outcome, written: Option<nat>, iso: string, ms: nat)
    ensures var r := LinuxSave(files, tempDir, env, loginctl, paste, written, iso, ms).0;
      r.Ok? <==> LinuxSessionType(env, loginctl) != Unknown && paste.Ran? && written.Some? && written.value > 0
    ensures var (r, out) := LinuxSave(files, tempDir, env, loginctl, paste, written, iso, ms);
      r.Ok? ==> r.value == LinuxTarget(tempDir, iso, ms) && out == files[LinuxTarget(tempDir, iso, ms) := written.value]
    ensures AgreeExcept(files, LinuxSave(files, tempDir, env, loginctl, paste, written, iso, ms).1, LinuxTarget(tempDir, iso, ms))
  {
    var full := LinuxTarget(tempDir, iso, ms);
    if LinuxSessionType(env, loginctl) != Unknown {
      var after := if written.Some? then files[full := written.value] else files - {full};
      assert AgreeExcept(files, after, full);
      assert AgreeExcept(files, after - {full}, full);
    }
  }

  /** A helper that ran but left an empty file: the file is removed and the
      error is the wrapped "No image in clipboard". */
  lemma LinuxZeroByteOutput(files: Files, tempDir: string, env: Env, loginctl: Outcome,
                            out: string, err: string, iso: string, ms: nat)
    requires LinuxSessionType(env, loginctl) != Unknown
    ensures LinuxSave(files, tempDir, env, loginctl, Ran(out, err), Some(0), iso, ms) ==
      (Err(SaveFailedPrefix + NoImageInClipboard), files - {LinuxTarget(tempDir, iso, ms)})
  {
    var session := LinuxSessionType(env, loginctl);
    var full := LinuxTarget(tempDir, iso, ms);
    var after := files[full := 0];
    assert full in after && after[full] == 0;
    assert LinuxSave(files, tempDir, env, loginctl, Ran(out, err), Some(0), iso, ms) ==
      (Err(LinuxFailure(session, NoImageInClipboard)), after - {full});
    NoImageFailure(session);
    assert after - {full} == files - {full};
  }

  /** A helper that failed: a "command not found" gives the install hint of
      the session's tool (`wl-clipboard` for Wayland, `xclip` otherwise), and
      whatever the redirect created stays behind, empty or not. */
  lemma LinuxHelperFailure(files: Files, tempDir: string, env: Env, loginctl: Outcome,
                           message: string, written: Option<nat>, iso: string, ms: nat)
    requires LinuxSessionType(env, loginctl) != Unknown
    ensures var (r, out) := LinuxSave(files, tempDir, env, loginctl, Failed(message), written, iso, ms);
      var full := LinuxTarget(tempDir, iso, ms);
      && r.Err?
      && (Contains(message, "command not found") ==>
            r.msg == if LinuxSessionType(env, loginctl) == Wayland then WaylandHint else XclipHint)
      && (!Contains(message, "command not found") && message != "" ==> r.msg == SaveFailedPrefix + message)
      && (written.Some? ==> full in out && out[full] == written.value)
  {
  }

  // ---------------------------------------------------------------------------
  // The command handler

  /** Everything the handler's run depends on besides the store: the
      platform facts, the environment, the workspace, the clock and the
      outcome of every helper it may call. */
  datatype Snapshot = Snapshot(
    os: string,
    windowsMount: bool,
    env: Env,
    loginctl: Outcome,
    listTypes: Outcome,
    targets: Outcome,
    psProbe: Outcome,
    workspaceRoot: Option<string>,
    paste: Outcome,
    written: Option<nat>,
    pngpaste: Outcome,
    wslpath: Outcome,
    psExtract: Outcome,
    iso: string,
    ms: nat)

  /** What the user is shown: the two early refusals, a failure message,
      or the saved path with its size. */
  datatype Notice = Unsupported | NoImage | Refused(message: string) | Saved(path: string, kb: nat)

  /** `getImageFromClipboard(platform)` once a workspace is open. */
  function Extracted(files: Files, s: Snapshot, platform: Platform, root: string): (e: (Result<string>, Files))
    ensures platform != Linux ==> e.1 == files
    ensures platform in {Windows, Wsl} && e.0.Ok? ==>
      s.psExtract.Ran? && s.psExtract.stderr == "" && e.0.value == Trim(s.psExtract.stdout)
    ensures platform == Wsl && s.wslpath.Failed? ==> e.0 == Err(s.wslpath.message)
  {
    match platform
    case Linux => LinuxSave(files, TempDir(root), s.env, s.loginctl, s.paste, s.written, s.iso, s.ms)
    case Macos => (MacosImagePath(TempDir(root), s.iso, s.ms, s.pngpaste), files)
    case Windows => (ScriptImagePath(s.psExtract), files)
    case Wsl =>
      match s.wslpath
      case Failed(m) => (Err(m), files)
      case Ran(_, _) => (ScriptImagePath(s.psExtract), files)
  }

  /** On Windows and WSL, extraction is a run of the extractor script: a
      path the script wrote comes back as that path, and a script that dies
      comes back as Node's "Command failed" message carrying its error; the
      store is the one the script left. */
  lemma ExtractedRunsScript(files: Files, s: Snapshot, platform: Platform, root: string,
                            script: string, clip: ClipboardScript.Clipboard,
                            host: ClipboardScript.Host, dir: string, date: string)
    requires platform in {Windows, Wsl} && (platform == Wsl ==> s.wslpath.Ran?)
    requires dir == "" || !IsJsSpace(dir[0])
    requires s.psExtract == ScriptOutcome(platform, script, ClipboardScript.Extract(clip, host, dir, date))
    ensures var r := ClipboardScript.Extract(clip, host, dir, date);
      Extracted(files, s, platform, root)
        == (if r.Wrote? then Ok(r.path)
            else Err(CommandFailed(PowerShellCommand(platform, script), r.error + "\r\n")), files)
  {
    if ClipboardScript.Extract(clip, host, dir, date).Wrote? {
      ScriptPathComesBack(platform, script, clip, host, dir, date);
    } else {
      ScriptErrorIsRejection(platform, script, clip, host, dir, date);
    }
  }

  /** On Linux and macOS the path the handler goes on to validate is the
      file the platform's helper wrote: on Linux the redirect's target, in
      the workspace root and holding what the helper left; on macOS the
      file `pngpaste` was told to write, under `temp`. */
  lemma FinalPathIsWrittenFile(files: Files, s: Snapshot, root: string)
    requires root != ""
    ensures var e := Extracted(files, s, Linux, root);
      var target := LinuxTarget(TempDir(root), s.iso, s.ms);
      e.0.Ok? ==>
        && FinalPath(Linux, root, e.0.value) == target
        && s.written.Some? && target in e.1 && e.1[target] == s.written.value
        && (root[|root| - 1] != '/' ==> target == root + "/" + ImageFilename(s.iso, s.ms))
    ensures var e := Extracted(files, s, Macos, root);
      e.0.Ok? ==>
        && s.pngpaste.Ran?
        && FinalPath(Macos, root, e.0.value) == root + "/temp/" + ImageFilename(s.iso, s.ms)
  {
    LinuxSaveOutcome(files, TempDir(root), s.env, s.loginctl, s.paste, s.written, s.iso, s.ms);
    if root[|root| - 1] != '/' {
      LinuxTargetInRoot(root, s.iso, s.ms);
    }
    if s.pngpaste.Ran? {
      MacosPathInTemp(root, s.iso, s.ms, s.pngpaste.stdout, s.pngpaste.stderr);
    }
  }

  /** The registered command, from the platform check to the notice. */
  function Handle(files: Files, s: Snapshot): (Notice, Files)
  {
    var platform := GetPlatform(s.os, s.windowsMount);
    if platform.None? then (Unsupported, files)
    else if !ClipboardHasImage(platform.value, s.env, s.loginctl, s.listTypes, s.targets, s.psProbe) then
      (NoImage, files)
    else match s.workspaceRoot
      case None => (Refused(SaveFailedPrefix + "No workspace folder is open"), files)
      case Some(root) =>
        var e := Extracted(files, s, platform.value, root);
        Conclude(platform.value, root, e.0, e.1)
  }

  /** The end of the command: an extraction error is wrapped; an extracted
      path is reconciled and validated. */
  function Conclude(platform: Platform, root: string, r: Result<string>, extracted: Files): (Notice, Files)
  {
    match r
    case Err(m) => (Refused(SaveFailedPrefix + m), extracted)
    case Ok(imagePath) =>
      var finalPath := FinalPath(platform, root, imagePath);
      var (v, validated) := Validation(extracted, finalPath);
      if v == Accepted then (Saved(finalPath, SizeKB(extracted[finalPath])), validated)
      else (Refused(SaveFailedPrefix + RejectionMessage(v)), validated)
  }

  /** Once the platform is known, the probe has seen an image and a
      workspace is open, the command is the extraction and its conclusion. */
  lemma HandleProceeds(files: Files, s: Snapshot, platform: Platform, root: string)
    requires GetPlatform(s.os, s.windowsMount) == Some(platform)
    requires ClipboardHasImage(platform, s.env, s.loginctl, s.listTypes, s.targets, s.psProbe)
    requires s.workspaceRoot == Some(root)
    ensures var e := Extracted(files, s, platform, root);
      Handle(files, s) == Conclude(platform, root, e.0, e.1)
  {
  }

  /** A concluded save is in the store within the size bounds, the store
      is the extracted one, and only the final path can have gone. */
  lemma ConcludeSaved(platform: Platform, root: string, r: Result<string>, extracted: Files)
    ensures var (n, out) := Conclude(platform, root, r, extracted);
      && out.Keys <= extracted.Keys
      && (r.Ok? ==> AgreeExcept(extracted, out, FinalPath(platform, root, r.value)))
      && (r.Err? ==> out == extracted)
      && (n.Saved? ==>
            && r.Ok? && n.path == FinalPath(platform, root, r.value)
            && out == extracted
            && MinSize <= out[n.path] <= MaxSize
            && n.kb == SizeKB(out[n.path])
            && 1 <= n.kb <= 51200)
  {
    var (n, out) := Conclude(platform, root, r, extracted);
    if r.Ok? {
      ValidationTouchesOnlyPath(extracted, FinalPath(platform, root, r.value));
      if n.Saved? {
        AcceptedSizeKB(out[n.path]);
      }
    }
  }

  /** An unsupported OS, or a probe that sees no image, ends the command
      with nothing extracted and the store untouched. */
  lemma HandleStopsEarly(files: Files, s: Snapshot)
    ensures GetPlatform(s.os, s.windowsMount).None? ==> Handle(files, s) == (Unsupported, files)
    ensures var platform := GetPlatform(s.os, s.windowsMount);
      platform.Some? && !ClipboardHasImage(platform.value, s.env, s.loginctl, s.listTypes, s.targets, s.psProbe) ==>
        Handle(files, s) == (NoImage, files)
  {
  }

  /** On macOS the PowerShell probe runs too: where it cannot be run the
      command stops at "no image", so `pngpaste` is never reached. */
  lemma MacosNeedsPowerShell(files: Files, s: Snapshot, message: string)
    requires s.os == "darwin" && s.psProbe == Failed(message)
    ensures Handle(files, s) == (NoImage, files)
  {
  }

  /** A saved image is in the store, within the size bounds, reported with
      its rounded size in KB. */
  lemma HandleSavedIsValid(files: Files, s: Snapshot)
    ensures var (n, out) := Handle(files, s);
      n.Saved? ==>
        && n.path in out
        && MinSize <= out[n.path] <= MaxSize
        && n.kb == SizeKB(out[n.path])
        && 1 <= n.kb <= 51200
  {
    var platform := GetPlatform(s.os, s.windowsMount);
    if platform.Some? && ClipboardHasImage(platform.value, s.env, s.loginctl, s.listTypes, s.targets, s.psProbe)
       && s.workspaceRoot.Some? {
      var root := s.workspaceRoot.value;
      HandleProceeds(files, s, platform.value, root);
      var e := Extracted(files, s, platform.value, root);
      ConcludeSaved(platform.value, root, e.0, e.1);
    }
  }

  /** A run changes at most one path of the store. */
  lemma HandleChangesOnePath(files: Files, s: Snapshot)
    ensures exists p :: AgreeExcept(files, Handle(files, s).1, p)
  {
    var platform := GetPlatform(s.os, s.windowsMount);
    if platform.Some? && ClipboardHasImage(platform.value, s.env, s.loginctl, s.listTypes, s.targets, s.psProbe)
       && s.workspaceRoot.Some? {
      var root := s.workspaceRoot.value;
      HandleProceeds(files, s, platform.value, root);
      var e := Extracted(files, s, platform.value, root);
      ConcludeSaved(platform.value, root, e.0, e.1);
      if platform.value == Linux {
        var full := LinuxTarget(TempDir(root), s.iso, s.ms);
        LinuxSaveOutcome(files, TempDir(root), s.env, s.loginctl, s.paste, s.written, s.iso, s.ms);
        assert AgreeExcept(files, Handle(files, s).1, full);
      } else if e.0.Ok? {
        assert AgreeExcept(files, Handle(files, s).1, FinalPath(platform.value, root, e.0.value));
      } else {
        assert AgreeExcept(files, Handle(files, s).1, "");
      }
    } else {
      assert AgreeExcept(files, Handle(files, s).1, "");
    }
  }

  /** Off Linux nothing is deleted but the validated file, and a saved image
      leaves the store exactly as the helper left it. */
  lemma HandleOffLinuxKeepsSaved(files: Files, s: Snapshot)
    requires GetPlatform(s.os, s.windowsMount) != Some(Linux)
    ensures var (n, out) := Handle(files, s);
      && out.Keys <= files.Keys
      && (n.Saved? ==> out == files)
  {
    var platform := GetPlatform(s.os, s.windowsMount);
    if platform.Some? && ClipboardHasImage(platform.value, s.env, s.loginctl, s.listTypes, s.targets, s.psProbe)
       && s.workspaceRoot.Some? {
      var root := s.workspaceRoot.value;
      HandleProceeds(files, s, platform.value, root);
      var e := Extracted(files, s, platform.value, root);
      ConcludeSaved(platform.value, root, e.0, e.1);
    }
  }

  /** On Windows the path validated is the script's trimmed output; on WSL
      it is that output's last segment under `<workspaceRoot>/temp`. */
  lemma HandleValidatesScriptPath(files: Files, s: Snapshot)
    requires GetPlatform(s.os, s.windowsMount) in {Some(Windows), Some(Wsl)}
    ensures var (n, out) := Handle(files, s);
      n.Saved? ==>
        && s.workspaceRoot.Some? && s.psExtract.Ran? && s.psExtract.stderr == ""
        && n.path == if s.os == "win32" then Trim(s.psExtract.stdout)
                     else WslFinalPath(s.workspaceRoot.value, Trim(s.psExtract.stdout))
  {
    var platform := GetPlatform(s.os, s.windowsMount).value;
    assert platform == Windows <==> s.os == "win32";
    var n := Handle(files, s).0;
    if n.Saved? {
      assert ClipboardHasImage(platform, s.env, s.loginctl, s.listTypes, s.targets, s.psProbe);
      assert s.workspaceRoot.Some?;
      var root := s.workspaceRoot.value;
      HandleProceeds(files, s, platform, root);
      var e := Extracted(files, s, platform, root);
      ConcludeSaved(platform, root, e.0, e.1);
      assert e.0.Ok? && n.path == FinalPath(platform, root, e.0.value);
      assert e.0.value == Trim(s.psExtract.stdout);
    }
  }

  /** A PowerShell extractor that dies (status 1) reaches the user as
      Node's "Command failed" message behind the handler's prefix: the
      command line, then the script's error; the store is untouched. */
  lemma HandleScriptDies(files: Files, s: Snapshot, platform: Platform, root: string,
                         script: string, e: string)
    requires platform in {Windows, Wsl}
    requires GetPlatform(s.os, s.windowsMount) == Some(platform)
    requires ClipboardHasImage(platform, s.env, s.loginctl, s.listTypes, s.targets, s.psProbe)
    requires s.workspaceRoot == Some(root)
    requires platform == Wsl ==> s.wslpath.Ran?
    requires s.psExtract == ScriptOutcome(platform, script, ClipboardScript.Died(e))
    ensures Handle(files, s)
      == (Refused(SaveFailedPrefix + CommandFailed(PowerShellCommand(platform, script), e + "\r\n")), files)
  {
    HandleProceeds(files, s, platform, root);
  }

  /** An empty Linux paste: the file is gone and the message carries the
      prefix twice, once from `saveImageLinux` and once from the handler. */
  lemma LinuxEmptyPasteDoubleWrapped(files: Files, s: Snapshot, root: string, out: string, err: string)
    requires GetPlatform(s.os, s.windowsMount) == Some(Linux)
    requires LinuxHasImage(s.env, s.loginctl, s.listTypes, s.targets)
    requires s.workspaceRoot == Some(root) && s.paste == Ran(out, err) && s.written == Some(0)
    ensures Handle(files, s) ==
      (Refused(SaveFailedPrefix + (SaveFailedPrefix + NoImageInClipboard)),
       files - {LinuxTarget(TempDir(root), s.iso, s.ms)})
  {
    HandleProceeds(files, s, Linux, root);
    var e := Extracted(files, s, Linux, root);
    assert e == LinuxSave(files, TempDir(root), s.env, s.loginctl, s.paste, s.written, s.iso, s.ms);
    LinuxZeroByteOutput(files, TempDir(root), s.env, s.loginctl, out, err, s.iso, s.ms);
    assert e.0 == Err(SaveFailedPrefix + NoImageInClipboard);
    assert Conclude(Linux, root, e.0, e.1) == (Refused(SaveFailedPrefix + (SaveFailedPrefix + NoImageInClipboard)), e.1);
  }

  // ---------------------------------------------------------------------------
  // The store

  class FileStore {
    var files: Files

    constructor(initial: Files)
      ensures files == initial
    {
      files := initial;
    }

    /** `fs.remove(path)`: removing a missing path is not an error. */
    method Remove(path: string)
      modifies this
      ensures files == old(files) - {path}
    {
      files := files - {path};
    }

    /** The size checks of the handler, deleting on every rejecting rung. */
    method Validate(path: string) returns (v: Verdict)
      modifies this
      ensures (v, files) == Validation(old(files), path)
    {
      if path !in files {
        return NotCreated;
      }
      var size := files[path];
      if size == 0 {
        Remove(path);
        return Empty;
      }
      if size < MinSize {
        Remove(path);
        return TooSmall;
      }
      if size > MaxSize {
        Remove(path);
        return TooLarge;
      }
      return Accepted;
    }

    /** `saveImageLinux`, step by step: the redirect's write, the `stat`,
        and the removal of an empty file. */
    method SaveLinux(tempDir: string, env: Env, loginctl: Outcome, paste: Outcome,
                     written: Option<nat>, iso: string, ms: nat) returns (r: Result<string>)
      modifies this
      ensures (r, files) == LinuxSave(old(files), tempDir, env, loginctl, paste, written, iso, ms)
    {
      var session := LinuxSessionType(env, loginctl);
      var full := LinuxTarget(tempDir, iso, ms);
      if session == Unknown {
        return Err(LinuxFailure(session, UnknownSessionMessage));
      }
      // the command line leaves `written` at the target
      if written.Some? {
        files := files[full := written.value];
      } else {
        files := files - {full};
      }
      if paste.Failed? {
        return Err(LinuxFailure(session, paste.message));
      }
      if full !in files {
        return Err(LinuxFailure(session, StatMissing(full)));
      }
      if files[full] == 0 {
        Remove(full);
        return Err(LinuxFailure(session, NoImageInClipboard));
      }
      return Ok(full);
    }

    /** The registered command. */
    method SaveClipboardImage(s: Snapshot) returns (n: Notice)
      modifies this
      ensures (n, files) == Handle(old(files), s)
    {
      var platform := GetPlatform(s.os, s.windowsMount);
      if platform.None? {
        return Unsupported;
      }
      if !ClipboardHasImage(platform.value, s.env, s.loginctl, s.listTypes, s.targets, s.psProbe) {
        return NoImage;
      }
      if s.workspaceRoot.None? {
        return Refused(SaveFailedPrefix + "No workspace folder is open");
      }
      var root := s.workspaceRoot.value;
      var r: Result<string>;
      if platform.value == Linux {
        r := SaveLinux(TempDir(root), s.env, s.loginctl, s.paste, s.written, s.iso, s.ms);
      } else {
        r := Extracted(files, s, platform.value, root).0;
      }
      if r.Err? {
        return Refused(SaveFailedPrefix + r.msg);
      }
      var finalPath := FinalPath(platform.value, root, r.value);
      var size := SizeOf(files, finalPath);
      var v := Validate(finalPath);
      if v == Accepted {
        return Saved(finalPath, SizeKB(size.value));
      }
      return Refused(SaveFailedPrefix + RejectionMessage(v));
    }
  }
}
