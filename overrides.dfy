/**
 * DLL overrides in the wine registry (src/wine/ext/overrides.rs): the mode
 * names, the comma-joined mode list, the `reg add`/`reg delete` argument
 * vectors, and the error built from the last line of `reg`'s stdout.
 */
module Overrides {
  import opened Common

  datatype OverrideMode = Native | Builtin | Disabled

  /** `OverrideMode::to_str`. */
  function ModeToStr(m: OverrideMode): (r: string)
    ensures ModeFromStr(r) == Some(m)
    ensures ',' !in r
  {
    match m
    case Native => "native"
    case Builtin => "builtin"
    case Disabled => "disabled"
  }

  /** Which mode a registry value names. */
  function ModeFromStr(s: string): (r: Option<OverrideMode>)
    ensures r.Some? <==> s in {"native", "builtin", "disabled"}
  {
    if s == "native" then Some(Native)
    else if s == "builtin" then Some(Builtin)
    else if s == "disabled" then Some(Disabled)
    else None
  }

  /** Different modes have different names. */
  lemma ModeToStrInjective(a: OverrideMode, b: OverrideMode)
    requires ModeToStr(a) == ModeToStr(b)
    ensures a == b
  {
    assert ModeFromStr(ModeToStr(a)) == Some(a);
  }

  function ModeNames(modes: seq<OverrideMode>): (r: seq<string>)
    ensures |r| == |modes| && forall i :: 0 <= i < |modes| ==> r[i] == ModeToStr(modes[i])
  {
    seq(|modes|, i requires 0 <= i < |modes| => ModeToStr(modes[i]))
  }

  /** The registry value: the mode names in order, joined by ','. */
  function ModesString(modes: seq<OverrideMode>): (r: string)
    ensures modes == [] ==> r == ""
    ensures |modes| == 1 ==> r == ModeToStr(modes[0])
  {
    JoinWith(ModeNames(modes), ',')
  }

  /** Reads a registry value back into modes, if every field names one. */
  function ParseModes(s: string): Option<seq<OverrideMode>> {
    var fields := Split(s, ',');
    if forall i :: 0 <= i < |fields| ==> ModeFromStr(fields[i]).Some? then
      Some(seq(|fields|, i requires 0 <= i < |fields| => ModeFromStr(fields[i]).value))
    else None
  }

  /** A non-empty mode list survives the join. */
  lemma ModesRoundTrip(modes: seq<OverrideMode>)
    ensures |modes| > 0 ==> ParseModes(ModesString(modes)) == Some(modes)
  {
    if |modes| > 0 {
      var names := ModeNames(modes);
      SplitJoin(names, ',');
      var fields := Split(ModesString(modes), ',');
      assert fields == names;
      assert forall i :: 0 <= i < |fields| ==> ModeFromStr(fields[i]) == Some(modes[i]);
      var parsed := seq(|fields|, i requires 0 <= i < |fields| => ModeFromStr(fields[i]).value);
      assert parsed == modes;
    }
  }
  const DllOverridesKey: string := "HKEY_CURRENT_USER\\Software\\Wine\\DllOverrides"

  /** The arguments `add_override` runs through wine. */
  function AddArgs(dll: string, modes: seq<OverrideMode>): (r: seq<string>)
    ensures |r| == 8 && r[..4] == ["reg", "add", DllOverridesKey, "/v"]
    ensures r[4] == dll && r[5] == "/d" && r[7] == "/f"
    ensures |modes| > 0 ==> ParseModes(r[6]) == Some(modes)
  {
    ModesRoundTrip(modes);
    ["reg", "add", DllOverridesKey, "/v", dll, "/d", ModesString(modes), "/f"]
  }

  /** The arguments `delete_override` runs through wine. */
  function DeleteArgs(dll: string): (r: seq<string>)
    ensures |r| == 6 && r[..4] == ["reg", "delete", DllOverridesKey, "/v"]
    ensures r[4] == dll && r[5] == "/f"
  {
    ["reg", "delete", DllOverridesKey, "/v", dll, "/f"]
  }

  /**
   * The outcome of one `reg` run: success is `Ok(())`; a failed run is an
   * error carrying `context` and the last line of stdout; a run that could
   * not be started or waited for passes its error on.
   */
  function RegOutcome(ran: Result<Output>, context: string): Result<()> {
    match ran
    case Err(e) => Err(e)
    case Ok(output) =>
      if output.success then Ok(()) else Err(Error(Other, context + LastLine(output.stdout)))
  }

  const AddFailure: string := "Failed to add dll override: "
  const DeleteFailure: string := "Failed to remove dll override: "

  /** `add_override`: `run` is the wine run of the given arguments. */
  function AddOverride(dll: string, modes: seq<OverrideMode>, run: Runner): (r: Result<()>)
    ensures var ran := run(AddArgs(dll, modes));
      && (ran.Err? ==> r == Err(ran.error))
      && (ran.Ok? && ran.value.success ==> r == Ok(()))
      && (ran.Ok? && !ran.value.success ==> r == Err(Error(Other, AddFailure + LastLine(ran.value.stdout))))
  {
    RegOutcome(run(AddArgs(dll, modes)), AddFailure)
  }

  /** `delete_override`. */
  function DeleteOverride(dll: string, run: Runner): (r: Result<()>)
    ensures var ran := run(DeleteArgs(dll));
      && (ran.Err? ==> r == Err(ran.error))
      && (ran.Ok? && ran.value.success ==> r == Ok(()))
      && (ran.Ok? && !ran.value.success ==> r == Err(Error(Other, DeleteFailure + LastLine(ran.value.stdout))))
  {
    RegOutcome(run(DeleteArgs(dll)), DeleteFailure)
  }

  /**
   * The diagnostic is the last non-blank line: a stdout ending in a line
   * and trailing whitespace reports that line.
   */
  lemma LastLineSkipsTrailingBlank(body: string, line: string, tail: string)
    requires '\n' !in line && line != [] && !IsWhitespace(line[|line| - 1])
    requires forall k :: 0 <= k < |tail| ==> IsWhitespace(tail[k])
    ensures LastLine(body + "\n" + line + tail) == line
  {
    var t := body + "\n" + line;
    assert body + "\n" + line + tail == t + tail;
    TrimEndOfPadded(t, tail);
    AfterNewline(body, line);
  }

  lemma {:induction false} TrimEndOfPadded(t: string, tail: string)
    requires t != [] && !IsWhitespace(t[|t| - 1])
    requires forall k :: 0 <= k < |tail| ==> IsWhitespace(tail[k])
    ensures TrimEnd(t + tail) == t
    decreases |tail|
  {
    if tail == [] {
      assert t + tail == t;
    } else {
      var s := t + tail;
      assert s[|s| - 1] == tail[|tail| - 1];
      assert s[..|s| - 1] == t + tail[..|tail| - 1];
      TrimEndOfPadded(t, tail[..|tail| - 1]);
    }
  }

  lemma {:induction false} AfterNewline(body: string, line: string)
    requires '\n' !in line
    ensures AfterLastNewline(body + "\n" + line) == line
    decreases |line|
  {
    var t := body + "\n" + line;
    if line != [] {
      assert t[|t| - 1] == line[|line| - 1];
      assert t[..|t| - 1] == body + "\n" + line[..|line| - 1];
      AfterNewline(body, line[..|line| - 1]);
      assert line[..|line| - 1] + [line[|line| - 1]] == line;
    }
  }
}
