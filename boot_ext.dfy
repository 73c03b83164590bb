/**
 * The oldest boot helpers (src/wine/boot_ext.rs), over the `Wine` record of
 * src/wine/mod.rs: every operation runs `wineboot()` itself with one flag
 * and `get_envs()`; only `update_prefix` adds a `WINEPREFIX` of its own.
 */
module BootExt {
  import opened Common
  import opened Lifecycle
  import WineMod

  /** The command every operation starts from: the resolved wineboot, no arguments. */
  function Base(w: WineMod.Wine, present: Exists): Command {
    Command(Render(WineMod.Wineboot(w, present)), [], map[])
  }

  /** `update_prefix(path)`: `-u`, with `WINEPREFIX` = `path` over `get_envs()`. */
  function UpdatePrefix(w: WineMod.Wine, present: Exists, path: Path): (c: Command)
    ensures c.program == Render(WineMod.Wineboot(w, present)) && c.args == ["-u"]
    ensures c.env.Keys == WineMod.GetEnvs(w).Keys + {WineMod.PrefixVar}
    ensures c.env[WineMod.PrefixVar] == Render(path)
    ensures forall k :: k in WineMod.GetEnvs(w) && k != WineMod.PrefixVar ==> c.env[k] == WineMod.GetEnvs(w)[k]
  {
    Invoke(Base(w, present), Update, WineMod.GetEnvs(w), Some(path))
  }

  /** `stop_processes(force)`: `-f` when forced, `-k` otherwise. */
  function StopProcesses(w: WineMod.Wine, present: Exists, force: bool): (c: Command)
    ensures c.program == Render(WineMod.Wineboot(w, present))
    ensures c.args == [if force then "-f" else "-k"] && c.env == WineMod.GetEnvs(w)
  {
    Invoke(Base(w, present), Stop(force), WineMod.GetEnvs(w), None)
  }

  /** `restart`: `-r` and `get_envs()` unchanged. */
  function Restart(w: WineMod.Wine, present: Exists): (c: Command)
    ensures c.program == Render(WineMod.Wineboot(w, present))
    ensures c.args == ["-r"] && c.env == WineMod.GetEnvs(w)
  {
    Invoke(Base(w, present), Lifecycle.Restart, WineMod.GetEnvs(w), None)
  }

  /** `shutdown`: `-s` and `get_envs()` unchanged. */
  function Shutdown(w: WineMod.Wine, present: Exists): (c: Command)
    ensures c.program == Render(WineMod.Wineboot(w, present))
    ensures c.args == ["-s"] && c.env == WineMod.GetEnvs(w)
  {
    Invoke(Base(w, present), Lifecycle.Shutdown, WineMod.GetEnvs(w), None)
  }

  /** `end_session`: `-e` and `get_envs()` unchanged. */
  function EndSession(w: WineMod.Wine, present: Exists): (c: Command)
    ensures c.program == Render(WineMod.Wineboot(w, present))
    ensures c.args == ["-e"] && c.env == WineMod.GetEnvs(w)
  {
    Invoke(Base(w, present), Lifecycle.EndSession, WineMod.GetEnvs(w), None)
  }
}
