/**
 * Boot helpers of the revision with an optional prefix
 * (src/wine/ext/boot_ext.rs): the command shape follows the tagged
 * wineboot, and `init_prefix`/`update_prefix` resolve the prefix (the
 * argument wins, then the configured one, else an `InvalidInput` error),
 * create it when missing, and only then spawn.
 */
module ExtBootExt {
  import opened Common
  import opened Lifecycle
  import WineMod
  import WithExt

  const NoPrefixMessage: string := "No prefix path given"

  /** The prefix `init_prefix`/`update_prefix` work on. */
  function ResolvePrefix(w: WithExt.Wine, path: Option<Path>): (r: Result<Path>)
    ensures path.Some? ==> r == Ok(path.value)
    ensures path.None? && w.prefix.Some? ==> r == Ok(w.prefix.value)
    ensures r.Err? <==> path.None? && w.prefix.None?
    ensures r.Err? ==> r.error == Error(InvalidInput, NoPrefixMessage)
  {
    match path
    case Some(p) => Ok(p)
    case None =>
      match w.prefix
      case Some(p) => Ok(p)
      case None => Err(Error(InvalidInput, NoPrefixMessage))
  }

  /**
   * The command `init_prefix` (`-i`) or `update_prefix` (`-u`) spawns for the
   * resolved prefix: its `WINEPREFIX` is that prefix, whatever `get_envs()`
   * holds, and every other variable is taken from `get_envs()`.
   */
  function PrefixCommand(w: WithExt.Wine, boot: Option<WineBoot>, op: BootOp, prefix: Path): (c: Command)
    requires op == Init || op == Update
    ensures c.program == WinebootCommand(w.binary, boot).program
    ensures c.args == WinebootCommand(w.binary, boot).args + [Flag(op)]
    ensures c.env.Keys == WithExt.GetEnvs(w).Keys + {WineMod.PrefixVar}
    ensures c.env[WineMod.PrefixVar] == Render(prefix)
    ensures forall k :: k in WithExt.GetEnvs(w) && k != WineMod.PrefixVar ==> c.env[k] == WithExt.GetEnvs(w)[k]
  {
    Invoke(WinebootCommand(w.binary, boot), op, WithExt.GetEnvs(w), Some(prefix))
  }

  /**
   * `init_prefix` / `update_prefix`. `createDir` stands for
   * `create_dir_all` (an error, or none) and `spawn` for running the
   * command. A missing prefix fails before any directory is created or
   * anything is spawned.
   */
  method PrefixOp(w: WithExt.Wine, boot: Option<WineBoot>, op: BootOp, path: Option<Path>,
                  present: Exists, createDir: Path -> Option<Error>, spawn: Spawner)
    returns (r: Result<Output>)
    requires op == Init || op == Update
    ensures ResolvePrefix(w, path).Err? ==> r == Err(Error(InvalidInput, NoPrefixMessage))
    ensures ResolvePrefix(w, path).Ok? ==>
      var p := ResolvePrefix(w, path).value;
      if !present(p) && createDir(p).Some? then r == Err(createDir(p).value)
      else r == spawn(PrefixCommand(w, boot, op, p))
  {
    var resolved := ResolvePrefix(w, path);
    if resolved.Err? {
      return Err(resolved.error);
    }
    var p := resolved.value;
    if !present(p) {
      var failure := createDir(p);
      if failure.Some? {
        return Err(failure.value);
      }
    }
    r := spawn(PrefixCommand(w, boot, op, p));
  }

  /**
   * The command of `stop_processes`, `restart`, `shutdown` and
   * `end_session`: the flag and `get_envs()` unchanged.
   */
  function SignalCommand(w: WithExt.Wine, boot: Option<WineBoot>, op: BootOp): (c: Command)
    requires op != Init && op != Update
    ensures c.program == WinebootCommand(w.binary, boot).program
    ensures c.args == WinebootCommand(w.binary, boot).args + [Flag(op)]
    ensures c.env == WithExt.GetEnvs(w)
  {
    Invoke(WinebootCommand(w.binary, boot), op, WithExt.GetEnvs(w), None)
  }
}
