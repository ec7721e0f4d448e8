/** Which host the extension runs on (`getPlatform`, src/extension.ts:161-178),
    which Linux desktop session it is in (`getLinuxSessionType`, :10-50), and
    the Linux clipboard probe on top of it (`checkLinuxClipboardHasImage`,
    :52-69). The process environment, the `/mnt/c/Windows` check and the
    helper calls are inputs. */
module Platform {
  import opened Wrappers
  import opened Text
  import opened Exec

  datatype Platform = Windows | Wsl | Linux | Macos

  /** `getPlatform()`: `os` is `process.platform`, `windowsMount` whether
      `/mnt/c/Windows` exists. `None` is the source's `null`. */
  function GetPlatform(os: string, windowsMount: bool): Option<Platform>
  {
    if os == "win32" then Some(Windows)
    else if os == "linux" then (if windowsMount then Some(Wsl) else Some(Linux))
    else if os == "darwin" then Some(Macos)
    else None
  }

  /** The `process.platform` value each platform is reached from. */
  function OsId(p: Platform): string
  {
    match p
    case Windows => "win32"
    case Wsl => "linux"
    case Linux => "linux"
    case Macos => "darwin"
  }

  /** The classification is exact: a platform is reported exactly for its own
      OS id, WSL and Linux are told apart by the mount alone, and every other
      OS id is unsupported. */
  lemma PlatformExact(os: string, windowsMount: bool, p: Platform)
    ensures GetPlatform(os, windowsMount) == Some(p) <==>
      os == OsId(p) && (p == Wsl ==> windowsMount) && (p == Linux ==> !windowsMount)
    ensures GetPlatform(os, windowsMount) == None <==> os !in {"win32", "linux", "darwin"}
  {
  }

  // ---------------------------------------------------------------------------
  // Linux session type

  datatype Session = X11 | Wayland | Unknown

  /** The environment variables: only defined, non-empty values are truthy. */
  type Env = map<string, string>

  /** The value of a variable, with an unset variable read as the empty
      string (both are falsy in the `if (process.env.X)` tests). */
  function EnvVar(env: Env, name: string): string
  {
    if name in env then env[name] else ""
  }

  /** Whether the `loginctl show-session` output names a session type, tried
      for `wayland` first. A failed query names none. */
  function LoginctlSession(loginctl: Outcome): Session
  {
    match loginctl
    case Ran(out, _) =>
      if Contains(out, "wayland") then Wayland
      else if Contains(out, "x11") then X11
      else Unknown
    case Failed(_) => Unknown
  }

  /** `getLinuxSessionType()`: first match wins. `loginctl` is what the
      fallback query would return; it is only looked at when none of the
      three variables decides. */
  function LinuxSessionType(env: Env, loginctl: Outcome): Session
  {
    var xdg := AsciiLower(EnvVar(env, "XDG_SESSION_TYPE"));
    if xdg == "wayland" then Wayland
    else if xdg == "x11" then X11
    else if EnvVar(env, "WAYLAND_DISPLAY") != "" then Wayland
    else if EnvVar(env, "DISPLAY") != "" then X11
    else LoginctlSession(loginctl)
  }

  /** Rung 1: an `XDG_SESSION_TYPE` of `wayland` or `x11`, in any case, wins
      over every other signal. */
  lemma XdgSessionWins(env: Env, loginctl: Outcome)
    requires AsciiLower(EnvVar(env, "XDG_SESSION_TYPE")) in {"wayland", "x11"}
    ensures LinuxSessionType(env, loginctl) ==
      if AsciiLower(EnvVar(env, "XDG_SESSION_TYPE")) == "wayland" then Wayland else X11
    ensures forall other: Env, l: Outcome ::
      EnvVar(other, "XDG_SESSION_TYPE") == EnvVar(env, "XDG_SESSION_TYPE") ==>
        LinuxSessionType(other, l) == LinuxSessionType(env, loginctl)
  {
  }

  /** Any other `XDG_SESSION_TYPE` value (`tty`, `mir`, ...) falls through: the
      result is the one the variable's absence would give. */
  lemma OtherXdgFallsThrough(env: Env, loginctl: Outcome)
    requires AsciiLower(EnvVar(env, "XDG_SESSION_TYPE")) !in {"wayland", "x11"}
    ensures LinuxSessionType(env, loginctl) == LinuxSessionType(env - {"XDG_SESSION_TYPE"}, loginctl)
  {
    var rest := env - {"XDG_SESSION_TYPE"};
    assert EnvVar(rest, "WAYLAND_DISPLAY") == EnvVar(env, "WAYLAND_DISPLAY");
    assert EnvVar(rest, "DISPLAY") == EnvVar(env, "DISPLAY");
  }

  /** `XDG_SESSION_TYPE` is matched case-insensitively: it selects Wayland
      exactly when it spells `wayland` in any mix of cases. */
  lemma XdgCaseInsensitive(env: Env)
    ensures var v := EnvVar(env, "XDG_SESSION_TYPE");
      AsciiLower(v) == "wayland" <==>
        |v| == 7 && forall i :: 0 <= i < 7 ==> v[i] == "wayland"[i] || v[i] == UpperChar("wayland"[i])
  {
    LowerMatchesIff(EnvVar(env, "XDG_SESSION_TYPE"), "wayland");
  }

  /** Rungs 2 and 3: once the session-type variable has not decided, a
      non-empty `WAYLAND_DISPLAY` beats `DISPLAY`, and `DISPLAY` beats the
      `loginctl` query. */
  lemma DisplayVariablesOrder(env: Env, loginctl: Outcome)
    requires AsciiLower(EnvVar(env, "XDG_SESSION_TYPE")) !in {"wayland", "x11"}
    ensures EnvVar(env, "WAYLAND_DISPLAY") != "" ==> LinuxSessionType(env, loginctl) == Wayland
    ensures EnvVar(env, "WAYLAND_DISPLAY") == "" && EnvVar(env, "DISPLAY") != "" ==>
      LinuxSessionType(env, loginctl) == X11
    ensures EnvVar(env, "WAYLAND_DISPLAY") == "" && EnvVar(env, "DISPLAY") == "" ==>
      LinuxSessionType(env, loginctl) == LoginctlSession(loginctl)
  {
  }

  /** Rung 4: the query output is searched for `wayland` before `x11`; a
      failed query, or one naming neither, leaves the session unknown. */
  lemma LoginctlLadder(out: string, err: string, message: string)
    ensures LoginctlSession(Ran(out, err)) == Wayland <==> Contains(out, "wayland")
    ensures LoginctlSession(Ran(out, err)) == X11 <==> !Contains(out, "wayland") && Contains(out, "x11")
    ensures LoginctlSession(Failed(message)) == Unknown
  {
  }

  /** The session is unknown exactly when no rung matches. */
  lemma UnknownIff(env: Env, loginctl: Outcome)
    ensures LinuxSessionType(env, loginctl) == Unknown <==>
      && AsciiLower(EnvVar(env, "XDG_SESSION_TYPE")) !in {"wayland", "x11"}
      && EnvVar(env, "WAYLAND_DISPLAY") == ""
      && EnvVar(env, "DISPLAY") == ""
      && (loginctl.Ran? ==> !Contains(loginctl.stdout, "wayland") && !Contains(loginctl.stdout, "x11"))
  {
  }

  /** A session type of `x11` together with a Wayland display: `x11` wins. */
  lemma X11BeatsWaylandDisplay(loginctl: Outcome)
    ensures LinuxSessionType(map["XDG_SESSION_TYPE" := "x11", "WAYLAND_DISPLAY" := "wayland-0"], loginctl) == X11
  {
    var env := map["XDG_SESSION_TYPE" := "x11", "WAYLAND_DISPLAY" := "wayland-0"];
    assert EnvVar(env, "XDG_SESSION_TYPE") == "x11";
    LowerMatchesIff("x11", "x11");
  }

  // ---------------------------------------------------------------------------
  // Linux clipboard probe

  /** Whether a type-listing helper succeeded and listed some `image/` type. */
  predicate ListsImage(listing: Outcome)
  {
    listing.Ran? && Contains(listing.stdout, "image/")
  }

  /** `checkLinuxClipboardHasImage()`: `listTypes` is what `wl-paste
      --list-types` returns, `targets` what the `xclip` TARGETS query returns;
      only the one for the detected session is consulted. */
  function LinuxHasImage(env: Env, loginctl: Outcome, listTypes: Outcome, targets: Outcome): bool
  {
    match LinuxSessionType(env, loginctl)
    case Wayland => ListsImage(listTypes)
    case X11 => ListsImage(targets)
    case Unknown => false
  }

  /** The probe is false for an unknown session and for any helper failure,
      and otherwise true exactly when the session's own helper printed a
      line containing `image/` somewhere. */
  lemma LinuxProbeVerdict(env: Env, loginctl: Outcome, listTypes: Outcome, targets: Outcome)
    ensures var session := LinuxSessionType(env, loginctl);
      var listing := if session == Wayland then listTypes else targets;
      LinuxHasImage(env, loginctl, listTypes, targets) <==>
        session != Unknown && listing.Ran? && exists i :: OccursAt(listing.stdout, "image/", i)
  {
    var session := LinuxSessionType(env, loginctl);
    var listing := if session == Wayland then listTypes else targets;
    if listing.Ran? {
      ContainsIff(listing.stdout, "image/");
    }
  }
}
