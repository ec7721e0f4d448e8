# claude-paste, modelled in Dafny

claude-paste is a VS Code extension with one command. The command saves the
image on the system clipboard as a file in the open workspace and reports
where it went. This project models the command's decision logic and proves
properties of it:

- which platform the extension is on (Windows, WSL, Linux, macOS or none);
- which desktop session a Linux host runs (X11, Wayland or unknown);
- whether the clipboard holds an image;
- the name the saved file gets;
- how the PowerShell scripts are escaped into a shell command line;
- what the PowerShell extractor does with a dropped file or an in-memory
  image;
- how a Windows path coming back from WSL is turned into a workspace path;
- the Linux save with its error translation;
- the size ladder that accepts or deletes the saved file.

The outside world is made of inputs:

- the OS id;
- whether `/mnt/c/Windows` exists;
- the environment variables;
- the clock, as the ISO string and the millisecond value;
- the workspace folder;
- the outcome of every helper program (`loginctl`, `wl-paste`, `xclip`,
  `powershell`, `wslpath`, `pngpaste`).

A helper's outcome is `Exec.Outcome`: either it ran, with its standard
output and error, or `exec` rejected, with a message. The file system is a
map from path to size, held by the `Store.FileStore` class. `Remove` is
proved to delete exactly the one key. The other methods that change the map
(`Validate`, `SaveLinux`, `SaveClipboardImage`) are each proved equal to a
pure function (`Validation`, `LinuxSave`, `Handle`), and the properties are
lemmas about those functions.

Modules, in dependency order:

- `Wrappers`: Option and Result.
- `Exec`: helper outcomes.
- `Text`: the JavaScript and .NET string operations used.
  - `includes`;
  - `replace` with a global or a first-match pattern;
  - `split(c)[0]`;
  - `trim`, over the ECMAScript white-space set;
  - `toLowerCase`;
  - `toString`;
  - `padStart`.
- `Platform`: `getPlatform`, the session ladder, the Linux probe.
- `Naming`: the file name.
- `Paths`: Node's POSIX `dirname`, `basename` and `join`.
- `Escaping`: the `replace` chains, as instances of one escape function.
- `ClipboardScript`: the rules of the two PowerShell scripts.
- `Extraction`: parsing of the scripts' output, the macOS branch, WSL
  reconciliation.
- `Store`: the Linux save, the size ladder and the command handler.

Points where the code does something a reader might not expect. The model
follows the code in each:

- The images go to `<workspace>/temp`. The comment at src/extension.ts:325
  speaks of a `.temp` directory.
- On Linux the file is written to `path.join(path.dirname(tempDir), name)`.
  Since `tempDir` is `<workspace>/temp`, that is the workspace root itself,
  not the temp directory (`Store.LinuxTargetInRoot`).
- The clipboard probe runs the PowerShell probe on every platform other than
  Linux, macOS included. Where `powershell` cannot be run on macOS, the
  command stops at "no image" before `pngpaste` is tried
  (`Store.MacosNeedsPowerShell`).
- A Linux helper that fails leaves behind the file its shell redirect
  created, even when that file is empty (`Store.LinuxHelperFailure`). Only a
  helper that succeeds with an empty output has its file removed.
- Every error `saveImageLinux` wraps itself (all but the two install hints)
  reaches the user wrapped in "Failed to save clipboard image: " twice: once
  inside `saveImageLinux` and once by the handler
  (`Store.LinuxEmptyPasteDoubleWrapped`). The install hints, and the
  handler's own size errors, get the prefix once.
- The extractor script sets `$ErrorActionPreference = 'Stop'`. Its
  "No image found in clipboard" error is raised inside a `try`, so the
  script reports it as "Failed to save clipboard image: No image found in
  clipboard".
- Every error of the extractor script ends the script with exit status 1,
  so `exec` rejects and the standard-error test at src/extension.ts:293-295
  is never reached by the script's own errors: the user sees Node's
  "Command failed: <command line>" message, followed by the script's error,
  behind the handler's prefix (`Store.HandleScriptDies`). That test only
  applies to a run that exits with status 0 and still writes to standard
  error.
- On WSL a clean script run with empty output reconciles to the temp
  directory itself (`Extraction.ReconcileEmptyOutput`).

## Model

| member | source | states |
|---|---|---|
| Platform.PlatformExact | src/extension.ts:161-178 | a platform is reported exactly for its own OS id; `linux` is WSL exactly when the Windows mount exists; every other OS id gives no platform |
| Platform.XdgSessionWins | src/extension.ts:13-21 | a lower-cased `XDG_SESSION_TYPE` of `wayland` or `x11` decides the session, whatever the other variables and `loginctl` say |
| Platform.OtherXdgFallsThrough | src/extension.ts:13-21 | any other `XDG_SESSION_TYPE` value gives the same result as the variable being unset |
| Platform.XdgCaseInsensitive | src/extension.ts:14-15 | `XDG_SESSION_TYPE` selects Wayland exactly when it spells `wayland` in any mix of cases |
| Platform.DisplayVariablesOrder | src/extension.ts:23-31 | once `XDG_SESSION_TYPE` has not decided, a non-empty `WAYLAND_DISPLAY` gives Wayland, otherwise a non-empty `DISPLAY` gives X11, otherwise `loginctl` decides |
| Platform.LoginctlLadder | src/extension.ts:33-46 | `loginctl` output is searched for `wayland` before `x11`; a failed query gives unknown |
| Platform.UnknownIff | src/extension.ts:10-50 | the session is unknown exactly when no rung of the ladder matches |
| Platform.X11BeatsWaylandDisplay | src/extension.ts:18-26 | `XDG_SESSION_TYPE=x11` together with a Wayland display gives X11 |
| Platform.LinuxProbeVerdict | src/extension.ts:52-69 | the Linux probe is true exactly when the session is known, that session's helper ran, and its output contains `image/` at some position |
| Naming.RewrittenAt | src/extension.ts:73 | character by character: every `:` and `.` of the ISO string becomes `-`, the first `T` becomes `_`, every other character is kept, and the length is unchanged |
| Naming.SplitIsNoOp | src/extension.ts:73 | no `.` or `:` survives the rewrite, so `split('.')[0]` changes nothing |
| Naming.MillisSuffixDigits | src/extension.ts:74 | for every millisecond value 0..999 the suffix is exactly its three decimal digits |
| Naming.MillisSuffixInjective | src/extension.ts:74 | distinct millisecond values give distinct suffixes |
| Naming.FilenamesDistinctPerMillisecond | src/extension.ts:73-75 | two names made from the same timestamp differ when their millisecond values differ |
| Naming.FilenameShape | src/extension.ts:75 | the name starts with `clipboard-image-`, ends in `.png`, is 24 characters longer than the ISO string, and has no `/` when the ISO string has none |
| Escaping.WslEscape | src/extension.ts:143-146 | the WSL chain adds exactly one character per `$`, `"` or backtick, and removing the backslashes in front of those gives the script back |
| Escaping.WslEscapePrefixed | src/extension.ts:143-146 | every `$`, `"` or backtick in the WSL output is preceded by a backslash |
| Escaping.WindowsEscape | src/extension.ts:149 | off WSL only `"` is escaped: one extra character per `"`, and the script reads back |
| Escaping.DoubledDirectory | src/extension.ts:218 | every backslash of the temp directory is doubled: one extra character per backslash, and the directory reads back |
| Extraction.CommandCarriesScript | src/extension.ts:141-151 | the command is `powershell.exe` (WSL) or `powershell` (otherwise), then `-NoProfile -Command`, then the quoted body; the body unescapes to the script by that platform's escape set |
| Paths.DirnameOfChild | src/extension.ts:76 | `dirname(d + "/" + n)` is `d` for a directory without a trailing slash and a non-empty name without a slash |
| Paths.BasenameOfChild | src/extension.ts:329 | `basename(d + "/" + n)` is `n` for a non-empty name without a slash, whatever `d` is |
| Paths.BasenameIsLastSegment | src/extension.ts:329 | for a path without a trailing slash, the base name is the suffix after its last `/`, or the whole path |
| Paths.Join3 | src/extension.ts:335 | joining three non-empty parts puts one `/` between each pair |
| ClipboardScript.GetExtension | src/extension.ts:241 | the extension is empty, or starts with `.` and has at least one more character; it has no further `.` or separator; it is a suffix of the path |
| ClipboardScript.GetExtensionOfName | src/extension.ts:241 | the extension of `stem.e` is `.e` for a non-empty `e` without a dot or separator |
| ClipboardScript.ImageDropKeepsExtension | src/extension.ts:239-251 | a present dropped file with an allowed lower-cased extension is copied to `<dir>/clipboard-image-<date><ext>` with that extension |
| ClipboardScript.UpperCaseExtension | src/extension.ts:241 | the extension is lower-cased before the check: `PHOTO.JPG` is copied as `.jpg` |
| ClipboardScript.MissingDropIsError | src/extension.ts:235-238 | a missing dropped file is an error, whatever else is on the clipboard |
| ClipboardScript.NonImageDropDisagrees | src/extension.ts:254-257 | a non-image dropped file is an error in the extractor, while the probe falls through to the in-memory image check |
| ClipboardScript.InMemoryImage | src/extension.ts:259-270 | with nothing dropped, an in-memory image is saved as `.png`; without one the error contains "No image found in clipboard" |
| ClipboardScript.ProbeCoversExtractor | src/extension.ts:119-134 | whenever the extractor writes a file, the probe says `true` |
| ClipboardScript.ProbeOverApproximates | src/extension.ts:119-126 | the converse fails: a missing `a.png` makes the probe say `true` and the extractor fail |
| ClipboardScript.WrittenPathShape | src/extension.ts:245 | every path the extractor writes is the directory, a `/`, and the prefix, the date and an allowed extension |
| Extraction.ProbeReadsScript | src/extension.ts:153-158 | off Linux, the probe's verdict is the script's own verdict when PowerShell ran, and false when it could not be run |
| Extraction.ProbeVerdictIsTrimmedTrue | src/extension.ts:155 | off Linux the probe is true exactly when the trimmed output is `true` |
| Extraction.ScriptErrorIsRejection | src/extension.ts:289-295 | a script that dies exits with status 1, so `exec` rejects and the error is Node's "Command failed: " message with the command line, then the script's error; the standard-error test is not reached |
| Extraction.ScriptPathComesBack | src/extension.ts:289-297 | a path the extractor wrote, printed with its line ending by a run that exits with status 0, is returned unchanged |
| Store.HandleScriptDies | src/extension.ts:289-295 | on Windows and WSL, a dying extractor reaches the user as the handler's prefix, then the "Command failed" message with the command line and the script's error; the store is untouched |
| Extraction.MacosImagePath | src/extension.ts:202-207 | the macOS branch returns a path exactly when `pngpaste` ran |
| Extraction.MacosPathInTemp | src/extension.ts:196-204 | the macOS path is `<workspace>/temp/` followed by the generated name |
| Store.FinalPathIsWrittenFile | src/extension.ts:337 | on Linux the validated path is the redirect's target in the workspace root, holding what the helper left; on macOS it is `<workspace>/temp/<name>`, the file `pngpaste` was told to write |
| Extraction.ReconcileKeepsName | src/extension.ts:329-335 | on WSL the Windows directory in front of the last `/` is discarded: `<anything>/<name>` becomes `<workspace>/temp/<name>` |
| Extraction.ReconcileScriptOutput | src/extension.ts:245 | what the extractor writes reconciles to `<workspace>/temp/clipboard-image-<date><ext>`, whatever directory text the script was given |
| Extraction.ReconcileEmptyOutput | src/extension.ts:329-335 | an empty (or all-slash) script output reconciles to `<workspace>/temp`, the temp directory itself |
| Extraction.ReconcileWithoutSlash | src/extension.ts:329 | a returned path with no `/` is taken whole as the name |
| Store.ValidationLadder | src/extension.ts:340-358 | missing: not created, nothing deleted; size 0: empty, deleted; 1..1023: too small, deleted; above 52428800: too large, deleted; 1024..52428800: accepted, kept |
| Store.ValidationTouchesOnlyPath | src/extension.ts:340-358 | the validator only ever removes the checked path; the file survives exactly when it is accepted, with its size unchanged |
| Store.SizeKBIsNearest | src/extension.ts:361 | the KB figure is the nearest whole number of KiB, halves rounded up |
| Store.AcceptedSizeKB | src/extension.ts:350-361 | an accepted file is reported as 1 to 51200 KB |
| Store.PlainFailure | src/extension.ts:99-107 | a non-empty message without the letter `f`, such as the model's own fixed messages, is wrapped in "Failed to save clipboard image: "; any other message is covered by Store.LinuxHelperFailure |
| Store.LinuxUnknownSession | src/extension.ts:85-87 | an unknown session is the wrapped "Unknown session type" error, with the store untouched, whatever the helper would have done |
| Store.LinuxTargetInRoot | src/extension.ts:76 | the Linux target is `<workspace>/<name>`, next to `temp` and not inside it |
| Store.LinuxSaveOutcome | src/extension.ts:78-96 | the Linux save succeeds exactly when the session is known, the helper ran and left a non-empty file; it then returns the target; only the target can change |
| Store.LinuxZeroByteOutput | src/extension.ts:90-94 | a helper that ran but left an empty file: the file is removed, and the error is the wrapped "No image in clipboard" |
| Store.LinuxHelperFailure | src/extension.ts:97-107 | a failed helper is an error: "command not found" gives the wl-clipboard hint on Wayland and the xclip hint otherwise; another message is wrapped; the redirect's file stays |
| Store.ExtractedRunsScript | src/extension.ts:213-297 | on Windows and WSL (once `wslpath` ran), extraction returns exactly the path the extractor script wrote, or, when the script dies, Node's "Command failed" message with the command line and the script's error; the store is left as the script left it |
| Store.HandleProceeds | src/extension.ts:303-323 | with a platform, a positive probe and a workspace, the command is extraction followed by the conclusion |
| Store.ConcludeSaved | src/extension.ts:326-364 | after extraction, only the final path can change; a saved image is the final path, in the store, within the bounds, with the rounded size |
| Store.HandleStopsEarly | src/extension.ts:305-316 | an unsupported OS, or a probe that sees no image, ends the command with the store untouched |
| Store.MacosNeedsPowerShell | src/extension.ts:312-316 | on macOS, a PowerShell probe that cannot run stops the command at "no image" |
| Store.HandleSavedIsValid | src/extension.ts:339-364 | a saved image is in the store, 1024 to 52428800 bytes, reported with its rounded size of 1 to 51200 KB |
| Store.HandleChangesOnePath | src/extension.ts:303-374 | one run of the command changes at most one path of the store |
| Store.HandleOffLinuxKeepsSaved | src/extension.ts:339-358 | off Linux the command never adds a file, and a saved image leaves the store as the helper left it |
| Store.HandleValidatesScriptPath | src/extension.ts:323-336 | on Windows the saved path is the script's trimmed output; on WSL it is that output's last segment under `<workspace>/temp` |
| Store.LinuxEmptyPasteDoubleWrapped | src/extension.ts:373 | an empty Linux paste removes the file, and the message carries the "Failed to save clipboard image: " prefix twice |
| Store.FileStore.Remove | src/extension.ts:346 | `fs.remove` of a file deletes exactly the given path |
| Store.FileStore.Validate | src/extension.ts:339-358 | the size checks, step by step; verdict and new store are those of `Validation` |
| Store.FileStore.SaveLinux | src/extension.ts:71-108 | `saveImageLinux`, step by step; result and new store are those of `LinuxSave` |
| Store.FileStore.SaveClipboardImage | src/extension.ts:303-374 | the registered command; notice and new store are those of `Handle` |

## Left out

- The VS Code API is not modelled: command registration, `withProgress`, the information, warning and error pop-ups, `asRelativePath` and the "Copy Path" action. The notice (`Store.Notice`) carries the absolute final path and the KB figure.
- `child_process.exec` is not modelled: no process control and no timeouts. Each helper call is an outcome input.
- `loginctl`, `wl-paste`, `xclip`, PowerShell, `wslpath` and `pngpaste` are foreign programs. Only their outcomes are inputs.
- The clipboard and the .NET calls inside the scripts are inputs too: the drop list, `Test-Path`, `GetImage`, `Add-Type`, `Copy-Item` and `Image.Save`.
- The session ladder is evaluated twice, once by the probe and once by the Linux save. Both evaluations see the same environment and the same `loginctl` outcome. Real `loginctl` calls could differ between the two.
- On Windows, WSL and macOS the file is written by a foreign program. The store given to the handler is the one after that program ran. The second workspace check on WSL (src/extension.ts:330-333) cannot fail within one snapshot, so it is not modelled.
- `fs.ensureDir` is not modelled; the store holds files only.
- Extraction.WslFinalPath and Store.Validation: the store has no directories. An empty or all-slash script output on WSL reconciles to `<workspace>/temp` itself (Extraction.ReconcileEmptyOutput). That is the directory `ensureDir` created, so the real `existsSync` accepts it, `statSync` reports the directory's own size, and the handler then either reports it as saved or calls the recursive `fs.remove` on it, deleting every earlier paste. The model answers "not created" there and removes nothing.
- Text.AsciiLower: `toLowerCase` and `ToLower` are modelled for ASCII letters only; other characters pass through unchanged.
- Paths: the POSIX `path` functions are modelled on every platform. On native Windows Node uses `path.win32`, whose `join` at src/extension.ts:187 puts `\` between the parts. No modelled result depends on this, since there the temp directory only reaches the script text.
- Paths.JoinAll: `path.join` is not modelled normalising `.`, `..` or repeated slashes. The model joins the non-empty parts with `/`, which agrees with Node for the normal paths the extension builds.
- ClipboardScript.GetExtension: the exception .NET Framework raises for a path with invalid characters is not modelled.
- ClipboardScript.ProbeSaysImage: the probe script's `catch` (an `Add-Type` or clipboard failure printing `false`) is not modelled. The probe's output only enters through `psProbe`.
- ClipboardScript.Extract: extra lines PowerShell may put on standard error for a terminating error are not modelled, such as the error record's position lines or CLIXML progress records. The model takes the standard error of a dying script to be its message and a line ending; it reaches the handler only inside Node's "Command failed" message (`Extraction.ScriptOutcome`).
- The shell's and PowerShell's own reading of the escaped command line is not modelled. `Extraction.CommandCarriesScript` states the round trip with the model's `Unescape` instead.
- Extraction.MacosImagePath: the macOS branch is modelled only as far as the file's path and its single fixed error message.
- `Math.round(size / 1024)` is modelled as the integer `(size + 512) / 1024`. The two are equal for non-negative sizes, so floating point is not modelled.
- The activation log message and `deactivate` are not modelled.
