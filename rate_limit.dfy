/**
 * The per-socket translation limiter of the signaling server (server.js):
 * a fixed one-minute window per socket, at most twenty transcription events
 * in it. This module states one step of the limiter as a function; the
 * server keeps the windows in a map it updates in place.
 */
module RateLimit {
  import opened Wrappers
  import Js
  import CreditUsageLog

  const WindowMs := 60000
  const MaxPerWindow := 20
  const SecondMs := 1000
  const LimitMessage := "Translation rate limit exceeded. Please slow down."

  /** A socket's entry: events counted so far and the end of its window. */
  datatype Window = Window(count: int, resetTime: int)

  datatype Verdict = Admitted | Rejected(retryAfter: int)

  /** `Math.ceil((resetTime - now) / 1000)`. */
  function RetryAfter(w: Window, now: int): (secs: int)
    ensures (secs - 1) * SecondMs < w.resetTime - now <= secs * SecondMs
  {
    CreditUsageLog.CeilDiv(w.resetTime - now, SecondMs)
  }

  /** The `retryAfter` text sent with the error. */
  function RetryText(secs: int): (t: string)
    ensures |t| > 8 && t[|t| - 8..] == " seconds"
    ensures Js.IsNumeral(t[..|t| - 8]) && Js.NumeralValue(t[..|t| - 8]) == secs
  {
    var t := Js.IntToString(secs) + " seconds";
    assert t[..|t| - 8] == Js.IntToString(secs);
    t
  }

  /** The window the check runs against: a fresh one for an unknown socket,
      and a reset one once `now` has passed the stored end. */
  function Current(entry: Option<Window>, now: int): (w: Window)
    ensures entry.None? ==> w == Window(0, now + WindowMs)
    ensures entry.Some? && now > entry.value.resetTime ==> w == Window(0, now + WindowMs)
    ensures entry.Some? && now <= entry.value.resetTime ==> w == entry.value
  {
    var w := if entry.None? then Window(0, now + WindowMs) else entry.value;
    if now > w.resetTime then Window(0, now + WindowMs) else w
  }

  /** One transcription event: the entry afterwards and whether the event
      goes on. A full window rejects without counting. */
  function Admit(entry: Option<Window>, now: int): (r: (Window, Verdict))
    ensures var w := Current(entry, now);
            && (r.1.Admitted? <==> w.count < MaxPerWindow)
            && (r.1.Admitted? ==> r.0 == w.(count := w.count + 1))
            && (r.1.Rejected? ==> r.0 == w && r.1.retryAfter == RetryAfter(w, now))
  {
    var w := Current(entry, now);
    if w.count >= MaxPerWindow then (w, Rejected(RetryAfter(w, now)))
    else (w.(count := w.count + 1), Admitted)
  }

  /** A window never holds more than twenty events, however it started. */
  lemma AdmitKeepsBound(entry: Option<Window>, now: int)
    requires entry.Some? ==> 0 <= entry.value.count <= MaxPerWindow
    ensures 0 <= Admit(entry, now).0.count <= MaxPerWindow
  {
  }

  /** A socket's first event is admitted and opens a one-minute window. */
  lemma FirstEventAdmitted(now: int)
    ensures Admit(None, now) == (Window(1, now + WindowMs), Admitted)
  {
  }

  /** The window restarts only once `now` is strictly past its end. */
  lemma ResetOnlyAfterEnd(w: Window, now: int)
    ensures Admit(Some(w), now).0.resetTime != w.resetTime ==> now > w.resetTime
    ensures now > w.resetTime ==> Admit(Some(w), now).0.resetTime == now + WindowMs
  {
  }

  /** Replays events at the given times against an entry: the entry after the
      last one and how many were admitted. */
  function Replay(entry: Option<Window>, times: seq<int>): (r: (Option<Window>, nat))
    ensures r.1 <= |times|
    decreases |times|
  {
    if times == [] then (entry, 0)
    else
      var (w, v) := Admit(entry, times[0]);
      var (last, n) := Replay(Some(w), times[1..]);
      (last, n + (if v.Admitted? then 1 else 0))
  }

  /** Within one window, that is, while no event comes after its end, the
      limiter admits exactly as many events as the window has room for and
      no more: twenty events from an empty window, and then none. */
  lemma {:induction false} ReplayWithinWindow(w: Window, times: seq<int>)
    requires 0 <= w.count <= MaxPerWindow
    requires forall i :: 0 <= i < |times| ==> times[i] <= w.resetTime
    ensures var (last, n) := Replay(Some(w), times);
            && n == (if |times| <= MaxPerWindow - w.count then |times| else MaxPerWindow - w.count)
            && last == Some(Window(w.count + n, w.resetTime))
    decreases |times|
  {
    if times != [] {
      var (w', v) := Admit(Some(w), times[0]);
      assert w'.resetTime == w.resetTime;
      ReplayWithinWindow(w', times[1..]);
    }
  }

  /** The twenty-first event inside a window is refused, and with a wait of
      at most one minute when the window was opened by this limiter. */
  lemma {:induction false} TwentyFirstRejected(w: Window, now: int)
    requires w.count == MaxPerWindow && now <= w.resetTime <= now + WindowMs
    ensures Admit(Some(w), now) == (w, Rejected(RetryAfter(w, now)))
    ensures 0 <= RetryAfter(w, now) <= 60
  {
    var secs := RetryAfter(w, now);
    assert (secs - 1) * SecondMs < w.resetTime - now <= secs * SecondMs;
  }
}
