/**
 * Boot helpers of the revision whose prefix is always set
 * (src/wine/ext/boot.rs): the same command shapes, and prefix resolution
 * that cannot fail.
 */
module ExtBoot {
  import opened Common
  import opened Lifecycle
  import WineMod
  import ExtWith

  /** The argument wins, else the configured prefix. */
  function ResolvePrefix(w: ExtWith.Wine, path: Option<Path>): (r: Path)
    ensures path.Some? ==> r == path.value
    ensures path.None? ==> r == w.prefix
  {
    match path
    case Some(p) => p
    case None => w.prefix
  }

  /** `-i`/`-u` for the resolved prefix; its `WINEPREFIX` overrides the configured one. */
  function PrefixCommand(w: ExtWith.Wine, boot: Option<WineBoot>, op: BootOp, prefix: Path): (c: Command)
    requires op == Init || op == Update
    ensures c.program == WinebootCommand(w.binary, boot).program
    ensures c.args == WinebootCommand(w.binary, boot).args + [Flag(op)]
    ensures c.env.Keys == ExtWith.GetEnvs(w).Keys
    ensures c.env[WineMod.PrefixVar] == Render(prefix)
    ensures forall k :: k in ExtWith.GetEnvs(w) && k != WineMod.PrefixVar ==> c.env[k] == ExtWith.GetEnvs(w)[k]
  {
    Invoke(WinebootCommand(w.binary, boot), op, ExtWith.GetEnvs(w), Some(prefix))
  }

  /** With no argument, the command is exactly the configured environment. */
  lemma DefaultPrefixCommandKeepsEnvs(w: ExtWith.Wine, boot: Option<WineBoot>, op: BootOp)
    requires op == Init || op == Update
    ensures PrefixCommand(w, boot, op, ResolvePrefix(w, None)).env == ExtWith.GetEnvs(w)
  {
    var c := PrefixCommand(w, boot, op, w.prefix);
    assert forall k :: k in c.env ==> c.env[k] == ExtWith.GetEnvs(w)[k];
  }

  /** `init_prefix` / `update_prefix`: create the prefix when missing, then spawn. */
  method PrefixOp(w: ExtWith.Wine, boot: Option<WineBoot>, op: BootOp, path: Option<Path>,
                  present: Exists, createDir: Path -> Option<Error>, spawn: Spawner)
    returns (r: Result<Output>)
    requires op == Init || op == Update
    ensures var p := ResolvePrefix(w, path);
      if !present(p) && createDir(p).Some? then r == Err(createDir(p).value)
      else r == spawn(PrefixCommand(w, boot, op, p))
  {
    var p := ResolvePrefix(w, path);
    if !present(p) {
      var failure := createDir(p);
      if failure.Some? {
        return Err(failure.value);
      }
    }
    r := spawn(PrefixCommand(w, boot, op, p));
  }

  /** `stop_processes`, `restart`, `shutdown`, `end_session`: the flag and `get_envs()` unchanged. */
  function SignalCommand(w: ExtWith.Wine, boot: Option<WineBoot>, op: BootOp): (c: Command)
    requires op != Init && op != Update
    ensures c.program == WinebootCommand(w.binary, boot).program
    ensures c.args == WinebootCommand(w.binary, boot).args + [Flag(op)]
    ensures c.env == ExtWith.GetEnvs(w)
  {
    Invoke(WinebootCommand(w.binary, boot), op, ExtWith.GetEnvs(w), None)
  }
}
