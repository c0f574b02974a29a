/**
 * The credit endpoints (controllers/creditController.js): the balance, the
 * usage history and its statistics, the purchase placeholder and the
 * support tool that adds credits.
 */
module CreditController {
  import opened Wrappers
  import Js
  import Db
  import Seqs
  import UserModel

  /** A row of `credit_usage_logs` as the queries see it (times in milliseconds). */
  datatype UsageLog = UsageLog(userId: nat, creditsUsed: int, createdAt: int)

  const DayMs := 86400000  // 24 * 60 * 60 * 1000
  const DefaultLimit := 50
  const DefaultOffset := 0

  datatype CreditsReply = UserNotFound | Balance(credits: int, plan: UserModel.Plan)

  /** `getCredits`: the stored balance and plan of the caller. */
  function GetCredits(users: seq<UserModel.User>, userId: nat): (r: CreditsReply)
    ensures r.UserNotFound? <==> UserModel.FindByPk(users, userId).None?
    ensures r.Balance? ==> exists i :: 0 <= i < |users| && users[i].id == userId
                                      && r.credits == users[i].credits && r.plan == users[i].plan
  {
    match UserModel.FindByPk(users, userId)
    case None => UserNotFound
    case Some(i) => Balance(users[i].credits, users[i].plan)
  }

  /** The `WHERE user_id = ?` condition of the history query. */
  function OwnedBy(userId: nat): UsageLog -> bool {
    (l: UsageLog) => l.userId == userId
  }

  datatype HistoryReply = History(logs: seq<UsageLog>, total: nat, limit: nat, offset: nat)

  /** `LIMIT limit OFFSET offset`: the run of at most `limit` rows starting at `offset`. */
  function Page(rows: seq<UsageLog>, offset: nat, limit: nat): (page: seq<UsageLog>)
    ensures |page| <= limit
    ensures offset <= |rows| ==> offset + |page| <= |rows|
    ensures offset >= |rows| ==> page == []
    ensures offset + limit <= |rows| ==> |page| == limit
    ensures forall i :: 0 <= i < |page| ==> page[i] == rows[offset + i]
  {
    var from := if offset <= |rows| then offset else |rows|;
    var to := if offset + limit <= |rows| then offset + limit else |rows|;
    rows[from..to]
  }

  /** Newest first: no log is older than one after it. */
  predicate NewestFirstOrder(logs: seq<UsageLog>) {
    forall i, j :: 0 <= i < j < |logs| ==> logs[i].createdAt >= logs[j].createdAt
  }

  /** Places `log` before the first log of `sorted` that is not newer than it. */
  function InsertByTime(log: UsageLog, sorted: seq<UsageLog>): (r: seq<UsageLog>)
    requires NewestFirstOrder(sorted)
    ensures NewestFirstOrder(r)
    ensures multiset(r) == multiset(sorted) + multiset{log}
    ensures |r| == |sorted| + 1 && (r[0] == log || (sorted != [] && r[0] == sorted[0]))
  {
    if sorted == [] || log.createdAt >= sorted[0].createdAt then [log] + sorted
    else
      var rest := InsertByTime(log, sorted[1..]);
      assert sorted == [sorted[0]] + sorted[1..];
      [sorted[0]] + rest
  }

  /**
   * `ORDER BY createdAt DESC`: the same logs, newest first. SQL leaves the
   * order of logs with equal times open; this sort keeps their table order.
   */
  function NewestFirst(logs: seq<UsageLog>): (r: seq<UsageLog>)
    ensures NewestFirstOrder(r)
    ensures multiset(r) == multiset(logs)
  {
    if logs == [] then []
    else
      assert logs == [logs[0]] + logs[1..];
      InsertByTime(logs[0], NewestFirst(logs[1..]))
  }

  /**
   * `getUsageHistory`: one page of the caller's logs ordered newest first,
   * with the total count; the page size defaults to 50 and the offset to 0.
   */
  function GetUsageHistory(logs: seq<UsageLog>, userId: nat, limit: Option<nat>, offset: Option<nat>): (r: HistoryReply)
    ensures r.limit == (if limit.Some? then limit.value else DefaultLimit)
    ensures r.offset == (if offset.Some? then offset.value else DefaultOffset)
    ensures r.total == |Seqs.Filter(logs, OwnedBy(userId))|
    ensures r.logs == Page(NewestFirst(Seqs.Filter(logs, OwnedBy(userId))), r.offset, r.limit)
    ensures NewestFirstOrder(r.logs)
    ensures forall l :: l in r.logs ==> l in logs && l.userId == userId
  {
    var mine := Seqs.Filter(logs, OwnedBy(userId));
    var sorted := NewestFirst(mine);
    var l := limit.GetOr(DefaultLimit);
    var o := offset.GetOr(DefaultOffset);
    PageOfSorted(mine, o, l);
    History(Page(sorted, o, l), |mine|, l, o)
  }

  /** A page of the sorted logs is itself newest first and holds only logs of the input. */
  lemma PageOfSorted(logs: seq<UsageLog>, offset: nat, limit: nat)
    ensures var page := Page(NewestFirst(logs), offset, limit);
            && NewestFirstOrder(page)
            && forall l :: l in page ==> l in logs
  {
    var sorted := NewestFirst(logs);
    var page := Page(sorted, offset, limit);
    forall l | l in page ensures l in logs {
      var i :| 0 <= i < |page| && page[i] == l;
      assert sorted[offset + i] == l;
      assert l in multiset(sorted);
    }
  }

  /** The look-back of a statistics period: 7, 30 or 90 days, and 30 for anything else. */
  function LookbackDays(period: Option<string>): (days: nat)
    ensures period == Some("7d") ==> days == 7
    ensures period == Some("90d") ==> days == 90
    ensures period != Some("7d") && period != Some("90d") ==> days == 30
  {
    match period.GetOr("30d")
    case "7d" => 7
    case "30d" => 30
    case "90d" => 90
    case _ => 30
  }

  /** The first instant of the period, `period` days before `now`. */
  function PeriodStart(now: int, period: Option<string>): (start: int)
    ensures now - 90 * DayMs <= start <= now - 7 * DayMs
  {
    now - LookbackDays(period) * DayMs
  }

  function SumCredits(logs: seq<UsageLog>): (total: int)
    ensures (forall i :: 0 <= i < |logs| ==> logs[i].creditsUsed >= 0) ==> total >= 0
  {
    if logs == [] then 0 else logs[0].creditsUsed + SumCredits(logs[1..])
  }

  /** The total over two batches of logs is the sum of their totals. */
  lemma {:induction false} SumCreditsAppend(a: seq<UsageLog>, b: seq<UsageLog>)
    ensures SumCredits(a + b) == SumCredits(a) + SumCredits(b)
  {
    if a != [] {
      assert (a + b)[1..] == a[1..] + b;
      SumCreditsAppend(a[1..], b);
    } else {
      assert a + b == b;
    }
  }

  /** Non-negative usage gives a total between 0 and the sessions times the largest entry. */
  lemma {:induction false} SumCreditsBounds(logs: seq<UsageLog>, most: int)
    requires forall i :: 0 <= i < |logs| ==> 0 <= logs[i].creditsUsed <= most
    ensures 0 <= SumCredits(logs) <= |logs| * most
  {
    if logs != [] {
      SumCreditsBounds(logs[1..], most);
    }
  }

  /** `total / count`, and 0 for no entries. */
  function Mean(total: int, count: nat): (m: real)
    ensures count == 0 ==> m == 0.0
    ensures count > 0 ==> m * (count as real) == total as real
  {
    if count > 0 then total as real / count as real else 0.0
  }

  datatype Stats = Stats(period: string, totalCreditsUsed: int, totalSessions: nat,
                         avgCreditsPerSession: real, currentCredits: int)

  /** The `WHERE user_id = ? AND created_at >= ?` condition of the statistics query. */
  function OwnedSince(userId: nat, start: int): UsageLog -> bool {
    (l: UsageLog) => l.userId == userId && l.createdAt >= start
  }

  /**
   * `getUsageStats`: the sum and number of the caller's logs in the period,
   * and their mean, which is 0 when there are none.
   */
  function GetUsageStats(logs: seq<UsageLog>, userId: nat, currentCredits: int,
                         period: Option<string>, now: int): (s: Stats)
    ensures var inPeriod := Seqs.Filter(logs, OwnedSince(userId, PeriodStart(now, period)));
            && s.totalCreditsUsed == SumCredits(inPeriod)
            && s.totalSessions == |inPeriod|
    ensures s.avgCreditsPerSession == Mean(s.totalCreditsUsed, s.totalSessions)
    ensures s.period == period.GetOr("30d") && s.currentCredits == currentCredits
  {
    var inPeriod := Seqs.Filter(logs, OwnedSince(userId, PeriodStart(now, period)));
    var total := SumCredits(inPeriod);
    var sessions := |inPeriod|;
    Stats(period.GetOr("30d"), total, sessions, Mean(total, sessions), currentCredits)
  }

  datatype PurchaseReply = InvalidAmount | ComingSoon

  const PurchasableAmounts := [100, 500, 1000, 5000]

  /** `purchaseCredits`: only the listed amounts pass, and even they buy nothing yet. */
  function PurchaseCredits(amount: Js.Value): (r: PurchaseReply)
    ensures r == ComingSoon <==> amount.Num? && amount.n in {100, 500, 1000, 5000}
  {
    if amount.Num? && amount.n in PurchasableAmounts then ComingSoon else InvalidAmount
  }

  datatype AddReply =
    | MissingFields                        // 400 'User ID and amount are required'
    | NoSuchUser                           // 404 'User not found'
    | AddFailed                            // 500 'Failed to add credits'
    | Added(message: string, newBalance: int)

  /**
   * `addCredits`: a falsy user id or amount is refused, an unknown user is
   * refused, a sum the INTEGER column cannot hold makes the save fail, and
   * otherwise the new balance is the old one plus `amount`.
   */
  method AddCredits(users: UserModel.UserTable, userId: Option<nat>, amount: Option<int>) returns (r: AddReply)
    requires users.Valid()
    modifies users
    ensures users.Valid()
    ensures r.MissingFields? <==> userId.None? || userId.value == 0 || amount.None? || amount.value == 0
    ensures !r.Added? ==> users.rows == old(users.rows)
    ensures r.NoSuchUser? <==> !r.MissingFields? && UserModel.FindByPk(old(users.rows), userId.value).None?
    ensures r.AddFailed? <==>
              && !r.MissingFields? && UserModel.FindByPk(old(users.rows), userId.value).Some?
              && !Db.IsInteger(old(users.rows)[UserModel.FindByPk(old(users.rows), userId.value).value].credits + amount.value)
    ensures r.Added? ==>
              var i := UserModel.FindByPk(old(users.rows), userId.value).value;
              && r.newBalance == old(users.rows)[i].credits + amount.value
              && users.rows == old(users.rows)[i := old(users.rows)[i].(credits := r.newBalance)]
              && r.message == "Added " + Js.IntToString(amount.value) + " credits successfully"
  {
    if userId.None? || userId.value == 0 || amount.None? || amount.value == 0 {
      return MissingFields;
    }
    var found := UserModel.FindByPk(users.rows, userId.value);
    if found.None? {
      return NoSuchUser;
    }
    var i := found.value;
    var balance := users.AddCredits(i, amount.value);
    if balance.Err? {
      assert !Db.IsInteger(old(users.rows)[i].credits + amount.value);
      return AddFailed;
    }
    assert balance.value == old(users.rows)[i].credits + amount.value;
    r := Added("Added " + Js.IntToString(amount.value) + " credits successfully", balance.value);
  }
}
