/**
 * The older override helpers (src/wine/ext/overrides_ext.rs): `add_override`
 * always writes `native`; the error handling is the same as in
 * src/wine/ext/overrides.rs.
 */
module OverridesExt {
  import opened Common
  import Overrides

  /** `add_override` with the fixed value `native`. */
  function AddOverride(dll: string, run: Runner): (r: Result<()>)
    ensures r == Overrides.AddOverride(dll, [Overrides.Native], run)
  {
    var args := ["reg", "add", Overrides.DllOverridesKey, "/v", dll, "/d", "native", "/f"];
    Overrides.RegOutcome(run(args), Overrides.AddFailure)
  }

  /** `delete_override`: the same arguments as the newer one. */
  function DeleteOverride(dll: string, run: Runner): (r: Result<()>)
    ensures r == Overrides.DeleteOverride(dll, run)
  {
    var args := ["reg", "delete", Overrides.DllOverridesKey, "/v", dll, "/f"];
    Overrides.RegOutcome(run(args), Overrides.DeleteFailure)
  }
}
