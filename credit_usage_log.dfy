/**
 * One translation session of a signed-in user (models/CreditUsageLog.js).
 * Times are milliseconds; a session is billed by the started minute.
 */
module CreditUsageLog {
  import opened Wrappers

  const MinuteMs := 60000

  /** `Math.ceil(a / b)` for a positive divisor: the least `r` with `a <= r * b`. */
  function CeilDiv(a: int, b: int): (r: int)
    requires b > 0
    ensures (r - 1) * b < a <= r * b
  {
    var q := (-a) / b;
    assert -a == q * b + (-a) % b;
    -q
  }

  /** A duration of exactly `k` whole minutes costs `k` credits. */
  lemma {:induction false} WholeMinutes(k: int)
    ensures CeilDiv(k * MinuteMs, MinuteMs) == k
  {
    var r := CeilDiv(k * MinuteMs, MinuteMs);
    assert (r - 1) * MinuteMs < k * MinuteMs <= r * MinuteMs;
  }

  /** Any started minute is billed in full. */
  lemma {:induction false} PartialMinuteRoundsUp(k: int, extra: int)
    requires 0 < extra < MinuteMs
    ensures CeilDiv(k * MinuteMs + extra, MinuteMs) == k + 1
  {
    var r := CeilDiv(k * MinuteMs + extra, MinuteMs);
    assert (r - 1) * MinuteMs < k * MinuteMs + extra <= r * MinuteMs;
  }

  class CreditUsageLog {
    var userId: nat
    var roomCode: string
    var startTime: int
    var endTime: Option<int>
    var creditsUsed: int
    var translationActive: bool

    /** A new log: no end time, 0 credits used, translation active. */
    constructor (userId: nat, roomCode: string, startTime: int)
      ensures this.userId == userId && this.roomCode == roomCode && this.startTime == startTime
      ensures endTime == None && creditsUsed == 0 && translationActive
    {
      this.userId := userId;
      this.roomCode := roomCode;
      this.startTime := startTime;
      this.endTime := None;
      this.creditsUsed := 0;
      this.translationActive := true;
    }

    /** `calculateCredits`: started minutes from the start to the end, or to `now` while open. */
    function CalculateCredits(now: int): (minutes: int)
      reads this
      ensures var stop := if endTime.Some? then endTime.value else now;
              (minutes - 1) * MinuteMs < stop - startTime <= minutes * MinuteMs
    {
      match endTime
      case Some(e) => CeilDiv(e - startTime, MinuteMs)
      case None => CeilDiv(now - startTime, MinuteMs)
    }

    /** `endSession`: closes the log and reports the credits tracked so far, never recomputed. */
    method EndSession(now: int) returns (used: int)
      modifies this
      ensures endTime == Some(now) && !translationActive
      ensures used == creditsUsed == old(creditsUsed)
      ensures userId == old(userId) && roomCode == old(roomCode) && startTime == old(startTime)
    {
      endTime := Some(now);
      translationActive := false;
      used := creditsUsed;
    }
  }
}
