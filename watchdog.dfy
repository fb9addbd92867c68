/**
  The conflict watchdog's pure parts: when an alert is due (a 60-second cooldown on a
  non-empty conflict list) and what the alert mail says (the first ten conflicts,
  numbered from 1, and a trailing "more" line when there are further ones).
*/
module Watchdog {
  import opened Wrappers
  import opened Entities
  import opened Text
  import opened Listing
  import opened Conflicts

  /** ALERT_INTERVAL: the minimum spacing of two alert mails, in milliseconds. */
  const AlertInterval: int := 60 * 1000

  /** How many conflicts the alert body lists. */
  const AlertLimit: nat := 10

  /** monitorConflicts sends an alert for a non-empty list once the cooldown has strictly elapsed. */
  predicate Due(count: nat, now: int, lastAlertTime: int)
  {
    count > 0 && now - lastAlertTime > AlertInterval
  }

  /** `String.format("%d. [%s] %s\n", i + 1, tableName, description)`, kept as its parts. */
  datatype AlertLine = AlertLine(number: int, table: Table, description: Description)
  {
    function Text(): string
    {
      DecimalString(number) + ". [" + table.Name() + "] " + description.Text() + "\n"
    }
  }

  /** The alert mail: how many conflicts there are, the lines listed, and whether the "more" line follows. */
  datatype Alert = Alert(count: nat, lines: seq<AlertLine>, more: bool)
  {
    function Subject(): string
    {
      "【数据监控】发现 " + DecimalString(count) + " 项数据冲突 (请及时处理)"
    }

    function Body(): string
    {
      "实时监控系统检测到以下数据不一致：\n\n" + LinesText(lines)
        + (if more then "\n... 等更多冲突。" else "")
        + "\n\n请尽快登录后台 [冲突处理] 页面进行修复，或等待定时同步任务自动覆盖。"
    }
  }

  function LinesText(lines: seq<AlertLine>): string
  {
    if |lines| == 0 then "" else lines[0].Text() + LinesText(lines[1..])
  }

  /** The line the alert gives the conflict at list position k. */
  function LineFor(c: Conflict, k: nat): AlertLine
  {
    AlertLine(k + 1, c.item.table, c.item.description)
  }

  /** The alert for a conflict list: its size, a line for each of the first ten conflicts, and the "more" flag. */
  function AlertFor(conflicts: seq<Conflict>): Alert
  {
    var limit := if |conflicts| < AlertLimit then |conflicts| else AlertLimit;
    Alert(|conflicts|, seq(limit, k requires 0 <= k < limit => LineFor(conflicts[k], k)), |conflicts| > AlertLimit)
  }

  /**
    The body-building loop of sendConflictNotification: one line for each of the first
    `min(size, 10)` conflicts, then the "more" flag.
  */
  method ComposeAlert(conflicts: seq<Conflict>) returns (alert: Alert)
    ensures alert.count == |conflicts|
    ensures |alert.lines| == if |conflicts| < AlertLimit then |conflicts| else AlertLimit
    ensures forall k :: 0 <= k < |alert.lines| ==> alert.lines[k] == LineFor(conflicts[k], k)
    ensures alert.more <==> |conflicts| > AlertLimit
    ensures alert == AlertFor(conflicts)
  {
    var limit := if |conflicts| < AlertLimit then |conflicts| else AlertLimit;
    var lines: seq<AlertLine> := [];
    var i := 0;
    while i < limit
      invariant 0 <= i <= limit
      invariant |lines| == i
      invariant forall k :: 0 <= k < i ==> lines[k] == LineFor(conflicts[k], k)
    {
      lines := lines + [LineFor(conflicts[i], i)];
      i := i + 1;
    }
    alert := Alert(|conflicts|, lines, |conflicts| > AlertLimit);
  }

  /** Every conflict is accounted for in the alert: listed with its own number, or behind the "more" line. */
  lemma AlertAccountsForEvery(conflicts: seq<Conflict>, alert: Alert, k: nat)
    requires alert.count == |conflicts|
    requires |alert.lines| == if |conflicts| < AlertLimit then |conflicts| else AlertLimit
    requires alert.more <==> |conflicts| > AlertLimit
    requires k < |conflicts|
    ensures k < |alert.lines| || alert.more
    ensures !alert.more ==> |alert.lines| == |conflicts|
  {
  }

  // ---------------------------------------------------------------
  // The watchdog over a run of ticks
  // ---------------------------------------------------------------

  /** One firing of monitorConflicts: the clock reading and how many conflicts the detector found. */
  datatype Tick = Tick(now: int, conflicts: nat)

  /** lastAlertTime after a run of ticks starting from `last`. */
  function LastAlert(ticks: seq<Tick>, last: int): int
  {
    if |ticks| == 0 then last
    else LastAlert(ticks[1..], if Due(ticks[0].conflicts, ticks[0].now, last) then ticks[0].now else last)
  }

  /** The instants at which a run of ticks sends alerts, starting from lastAlertTime `last`. */
  function AlertTimes(ticks: seq<Tick>, last: int): seq<int>
  {
    if |ticks| == 0 then []
    else if Due(ticks[0].conflicts, ticks[0].now, last) then [ticks[0].now] + AlertTimes(ticks[1..], ticks[0].now)
    else AlertTimes(ticks[1..], last)
  }

  /** Each alert is more than ALERT_INTERVAL after the alert before it (or after the initial `last`). */
  ghost predicate Spaced(times: seq<int>, last: int)
  {
    (|times| > 0 ==> times[0] - last > AlertInterval)
    && forall k :: 0 < k < |times| ==> times[k] - times[k - 1] > AlertInterval
  }

  /** Alerts are spaced by the cooldown, however the ticks and their conflict counts fall. */
  lemma {:induction false} AlertsAreSpaced(ticks: seq<Tick>, last: int)
    ensures Spaced(AlertTimes(ticks, last), last)
  {
    if |ticks| > 0 {
      var t := ticks[0];
      if Due(t.conflicts, t.now, last) {
        AlertsAreSpaced(ticks[1..], t.now);
        var rest := AlertTimes(ticks[1..], t.now);
        assert AlertTimes(ticks, last) == [t.now] + rest;
      } else {
        AlertsAreSpaced(ticks[1..], last);
      }
    }
  }

  /** lastAlertTime only moves when an alert is sent: it ends at the last alert's instant, or stays put. */
  lemma {:induction false} LastAlertIsLastSent(ticks: seq<Tick>, last: int)
    ensures var times := AlertTimes(ticks, last);
      LastAlert(ticks, last) == if |times| == 0 then last else times[|times| - 1]
  {
    if |ticks| > 0 {
      var t := ticks[0];
      if Due(t.conflicts, t.now, last) {
        LastAlertIsLastSent(ticks[1..], t.now);
      } else {
        LastAlertIsLastSent(ticks[1..], last);
      }
    }
  }

  /** A run in which the detector never finds anything sends no alert and leaves lastAlertTime alone. */
  lemma {:induction false} QuietRunSendsNothing(ticks: seq<Tick>, last: int)
    requires forall k :: 0 <= k < |ticks| ==> ticks[k].conflicts == 0
    ensures AlertTimes(ticks, last) == [] && LastAlert(ticks, last) == last
  {
    if |ticks| > 0 {
      assert ticks[0].conflicts == 0;
      QuietRunSendsNothing(ticks[1..], last);
    }
  }
}
