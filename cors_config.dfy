/**
 * The cross-origin rule (config/config.js). The HTTP server and the
 * socket.io server carry two copies of the same callback; both are
 * `CheckOrigin` here.
 */
module CorsConfig {
  import opened Wrappers

  const FixedOrigins: seq<string> := [
    "http://localhost:5173",
    "http://localhost:3000",
    "https://googlemeet-frontend.vercel.app"]

  /** `s.includes(part)`: `part` occurs somewhere in `s`. */
  predicate Contains(s: string, part: string)
  {
    exists i | 0 <= i <= |s| :: MatchAt(s, part, i)
  }

  /** `part` occurs in `s` starting at index `i`. */
  predicate MatchAt(s: string, part: string, i: int)
  {
    0 <= i <= |s| - |part| && s[i..i + |part|] == part
  }

  /** The allowed list: the three fixed origins and `FRONTEND_URL` when it is set. */
  function AllowedOrigins(frontendUrl: Option<string>): (list: seq<string>)
    ensures forall o :: o in FixedOrigins ==> o in list
    ensures frontendUrl.Some? && frontendUrl.value != "" ==> frontendUrl.value in list
    ensures forall o :: o in list ==> o in FixedOrigins || frontendUrl == Some(o)
    ensures "" !in list
  {
    FixedOrigins + (if frontendUrl.Some? && frontendUrl.value != "" then [frontendUrl.value] else [])
  }

  datatype Decision = Allow | Deny(message: string)

  /**
   * The origin callback: no origin is allowed, a listed origin is allowed,
   * and so is any origin containing `vercel.app`; the rest are refused.
   */
  function CheckOrigin(origin: Option<string>, frontendUrl: Option<string>): (d: Decision)
    ensures (origin.None? || origin.value == "") ==> d == Allow
    ensures origin.Some? && origin.value != "" ==>
              (d == Allow <==> origin.value in AllowedOrigins(frontendUrl) || Contains(origin.value, "vercel.app"))
    ensures d.Deny? ==> d.message == "Not allowed by CORS"
  {
    if origin.None? || origin.value == "" then Allow
    else if origin.value in AllowedOrigins(frontendUrl) || Contains(origin.value, "vercel.app") then Allow
    else Deny("Not allowed by CORS")
  }

  /** Any origin with `vercel.app` anywhere in it passes, whoever hosts it. */
  lemma {:induction false} VercelSubstringAdmitted(prefix: string, suffix: string, frontendUrl: Option<string>)
    ensures CheckOrigin(Some(prefix + "vercel.app" + suffix), frontendUrl) == Allow
  {
    var o := prefix + "vercel.app" + suffix;
    assert o[|prefix|..|prefix| + 10] == "vercel.app";
    assert MatchAt(o, "vercel.app", |prefix|);
  }
}
