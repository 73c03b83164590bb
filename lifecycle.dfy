/**
 * What the three revisions of the boot helpers share: the tagged location
 * of wineboot (src/wine/ext/boot_ext.rs, src/wine/ext/boot.rs), the base
 * command it gives, and the single flag each lifecycle operation passes.
 */
module Lifecycle {
  import opened Common

  /**
   * `WineBoot`: a Unix wineboot script run directly, or a Windows
   * `wineboot.exe` that has to be run through the wine binary.
   */
  datatype WineBoot = Unix(path: Path) | Windows(path: Path)

  /** The prefix lifecycle operations. */
  datatype BootOp = Init | Update | Stop(force: bool) | Restart | Shutdown | EndSession

  /** The one argument each operation adds. */
  function Flag(op: BootOp): (f: string)
    ensures |f| == 2 && f[0] == '-'
    ensures ParseFlag(f) == Some(op)
  {
    match op
    case Init => "-i"
    case Update => "-u"
    case Stop(force) => if force then "-f" else "-k"
    case Restart => "-r"
    case Shutdown => "-s"
    case EndSession => "-e"
  }

  /** Which operation a wineboot flag asks for. */
  function ParseFlag(f: string): (r: Option<BootOp>)
    ensures r.Some? <==> f in {"-i", "-u", "-f", "-k", "-r", "-s", "-e"}
  {
    if f == "-i" then Some(Init)
    else if f == "-u" then Some(Update)
    else if f == "-f" then Some(Stop(true))
    else if f == "-k" then Some(Stop(false))
    else if f == "-r" then Some(Restart)
    else if f == "-s" then Some(Shutdown)
    else if f == "-e" then Some(EndSession)
    else None
  }

  /** Different operations pass different flags. */
  lemma FlagInjective(a: BootOp, b: BootOp)
    requires Flag(a) == Flag(b)
    ensures a == b
  {
    assert ParseFlag(Flag(a)) == Some(a);
  }

  /**
   * `wineboot_command`: the resolved wineboot with no environment yet. A
   * Unix script is the program itself; a Windows executable, or no
   * resolved wineboot at all, is run as an argument of the wine binary.
   */
  function WinebootCommand(binary: Path, boot: Option<WineBoot>): (c: Command)
    ensures c.env == map[]
    ensures boot.Some? && boot.value.Unix? ==> c.program == Render(boot.value.path) && c.args == []
    ensures boot.Some? && boot.value.Windows? ==> c.program == Render(binary) && c.args == [Render(boot.value.path)]
    ensures boot.None? ==> c.program == Render(binary) && c.args == ["wineboot"]
  {
    match boot
    case Some(Unix(p)) => Command(Render(p), [], map[])
    case Some(Windows(p)) => Command(Render(binary), [Render(p)], map[])
    case None => Command(Render(binary), ["wineboot"], map[])
  }

  /**
   * The builder chain after `wineboot_command`: the operation's flag, the
   * wine environment, and for init/update a `WINEPREFIX` set afterwards,
   * which therefore overrides the one in `envs`.
   */
  function Invoke(base: Command, op: BootOp, envs: map<string, string>, prefix: Option<Path>): (c: Command)
    ensures c.program == base.program && c.args == base.args + [Flag(op)]
    ensures prefix.None? ==> c.env == base.env + envs
    ensures prefix.Some? ==> c.env.Keys == base.env.Keys + envs.Keys + {"WINEPREFIX"}
    ensures prefix.Some? ==> c.env["WINEPREFIX"] == Render(prefix.value)
    ensures prefix.Some? ==> forall k :: k in envs && k != "WINEPREFIX" ==> c.env[k] == envs[k]
    ensures prefix.Some? ==> forall k :: k in base.env && k !in envs && k != "WINEPREFIX" ==> c.env[k] == base.env[k]
  {
    var env := base.env + envs;
    Command(base.program, base.args + [Flag(op)],
      if prefix.Some? then env["WINEPREFIX" := Render(prefix.value)] else env)
  }
}
