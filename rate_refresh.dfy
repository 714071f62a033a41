/**
 * The retry, backoff and fallback policy of `get_usd_to_naira_rate` as a
 * function of what the outside world does, and the cache-freshness test of
 * the price handler.
 *
 * The outside world is abstracted as follows: each attempt is described by
 * an `Attempt` (would starting a browser succeed, and what the page yields),
 * clock readings are supplied integer seconds, and the backup file is an
 * optional `BackupRecord` (a missing file and an unreadable one are the same
 * `None`).
 */
module RateRefresh {
  import opened Wrappers
  import opened RateText

  const MaxRetries: nat := 3
  /** A backup record is used only while younger than a day. */
  const BackupMaxAge: int := 86400
  /** A cached rate is served only while younger than an hour. */
  const FreshnessWindow: int := 3600

  /** What one page load yields once a browser is running: an error, or the sell-rate text and the clock reading taken after it. */
  datatype Page = PageError | Text(text: string, readAt: int)

  datatype Attempt = Attempt(launches: bool, page: Page)

  /** A successfully scraped rate and the time it was taken. */
  datatype Reading = Reading(rate: real, at: int)

  datatype BackupRecord = BackupRecord(rate: real, timestamp: int)

  /** How the call ends: a returned float, an implicit `return None`, or the raised "Failed to get exchange rate". */
  datatype Reply = Returned(rate: real) | ReturnedNone | Raised

  /** A call's reply, the reading it stored in the cache and the backup (if any), and the backoff sleeps it made, in order. */
  datatype RefreshRun = RefreshRun(reply: Reply, stored: Option<Reading>, sleeps: seq<nat>)

  function Pow2(k: nat): nat {
    if k == 0 then 1 else 2 * Pow2(k - 1)
  }

  /** The `count` sleeps `2 ** from`, `2 ** (from + 1)`, ... */
  function Backoff(from: nat, count: nat): (r: seq<nat>)
    decreases count
    ensures |r| == count
    ensures forall i :: 0 <= i < |r| ==> r[i] == Pow2(from + i)
  {
    if count == 0 then [] else [Pow2(from)] + Backoff(from + 1, count - 1)
  }

  /**
   * One attempt's outcome: a reading when a browser is available (already
   * open, or started now), the page gave a non-empty text, and that text
   * parses once commas are removed.
   */
  function ReadAttempt(a: Attempt, driverOpen: bool): (r: Option<Reading>)
    ensures r.Some? <==> (driverOpen || a.launches) && a.page.Text? && a.page.text != [] && ParseRate(a.page.text).Some?
    ensures r.Some? ==> r.value == Reading(ParseRate(a.page.text).value, a.page.readAt)
  {
    if !driverOpen && !a.launches then None
    else match a.page
      case PageError => None
      case Text(text, readAt) =>
        if text == [] then None
        else match ParseRate(text)
          case None => None
          case Some(rate) => Some(Reading(rate, readAt))
  }

  function Delayed(pre: seq<nat>, run: RefreshRun): RefreshRun {
    run.(sleeps := pre + run.sleeps)
  }

  /**
   * The reading of each attempt. Only the first attempt can find a browser
   * already open: every attempt quits it, so later ones start with none.
   */
  function Readings(outcomes: seq<Attempt>, driverOpen: bool): seq<Option<Reading>> {
    seq(|outcomes|, j requires 0 <= j < |outcomes| => ReadAttempt(outcomes[j], j == 0 && driverOpen))
  }

  /**
   * The loop from attempt `k` on, given each attempt's reading. `now` is
   * the clock reading taken for the backup check.
   */
  function RefreshFrom(readings: seq<Option<Reading>>, k: nat, now: int, backup: Option<BackupRecord>): RefreshRun
    requires |readings| == MaxRetries && k <= MaxRetries
    decreases MaxRetries - k
  {
    if k == MaxRetries then RefreshRun(ReturnedNone, None, [])
    else match readings[k]
      case Some(reading) => RefreshRun(Returned(reading.rate), Some(reading), [])
      case None =>
        if k == MaxRetries - 1 && backup.None? then RefreshRun(Raised, None, [])
        else if k == MaxRetries - 1 && now - backup.value.timestamp < BackupMaxAge then
          RefreshRun(Returned(backup.value.rate), None, [])
        else Delayed([Pow2(k)], RefreshFrom(readings, k + 1, now, backup))
  }

  /** A whole call of `get_usd_to_naira_rate`; `driverOpen` says whether a browser is held when it starts. */
  function Refresh(outcomes: seq<Attempt>, driverOpen: bool, now: int, backup: Option<BackupRecord>): RefreshRun
    requires |outcomes| == MaxRetries
  {
    RefreshFrom(Readings(outcomes, driverOpen), 0, now, backup)
  }

  /** Attempt `k` gives no reading. */
  predicate Fails(outcomes: seq<Attempt>, k: nat, driverOpen: bool)
    requires k < |outcomes|
  {
    Readings(outcomes, driverOpen)[k].None?
  }

  lemma {:induction false} RefreshFromFirstReading(readings: seq<Option<Reading>>, now: int, backup: Option<BackupRecord>, k: nat, i: nat)
    requires |readings| == MaxRetries && i <= k < MaxRetries
    requires forall j :: 0 <= j < k ==> readings[j].None?
    requires readings[k].Some?
    ensures RefreshFrom(readings, i, now, backup) ==
      RefreshRun(Returned(readings[k].value.rate), readings[k], Backoff(i, k - i))
    decreases k - i
  {
    if i < k {
      assert readings[i].None?;
      RefreshFromFirstReading(readings, now, backup, k, i + 1);
    }
  }

  /**
   * When attempt `k` is the first to read a rate, that rate is returned and
   * stored with its own timestamp, after exactly `k` backoff sleeps of
   * 1, 2, ..., `2 ** (k - 1)` seconds.
   */
  lemma RefreshReturnsFirstReading(outcomes: seq<Attempt>, driverOpen: bool, now: int, backup: Option<BackupRecord>, k: nat)
    requires |outcomes| == MaxRetries && k < MaxRetries
    requires forall j :: 0 <= j < k ==> Fails(outcomes, j, driverOpen)
    requires !Fails(outcomes, k, driverOpen)
    ensures var reading := ReadAttempt(outcomes[k], k == 0 && driverOpen).value;
      Refresh(outcomes, driverOpen, now, backup) == RefreshRun(Returned(reading.rate), Some(reading), Backoff(0, k))
  {
    var readings := Readings(outcomes, driverOpen);
    assert readings[k] == ReadAttempt(outcomes[k], k == 0 && driverOpen) && readings[k].Some?;
    forall j | 0 <= j < k
      ensures readings[j].None?
    {
      assert Fails(outcomes, j, driverOpen);
    }
    RefreshFromFirstReading(readings, now, backup, k, 0);
  }

  /**
   * When all three attempts fail nothing is stored, and the backup decides:
   * a missing or unreadable one raises after two sleeps, a recent one is
   * returned after two sleeps, and a stale one falls through to a third
   * sleep of 4 seconds and an implicit `None`.
   */
  lemma RefreshAfterAllAttemptsFail(outcomes: seq<Attempt>, driverOpen: bool, now: int, backup: Option<BackupRecord>)
    requires |outcomes| == MaxRetries
    requires forall j :: 0 <= j < MaxRetries ==> Fails(outcomes, j, driverOpen)
    ensures var run := Refresh(outcomes, driverOpen, now, backup);
      run.stored.None? &&
      (backup.None? ==> run == RefreshRun(Raised, None, [1, 2])) &&
      (backup.Some? && now - backup.value.timestamp < BackupMaxAge ==>
         run == RefreshRun(Returned(backup.value.rate), None, [1, 2])) &&
      (backup.Some? && now - backup.value.timestamp >= BackupMaxAge ==>
         run == RefreshRun(ReturnedNone, None, [1, 2, 4]))
  {
    assert Fails(outcomes, 0, driverOpen) && Fails(outcomes, 1, driverOpen) && Fails(outcomes, 2, driverOpen);
    assert Pow2(2) == 4;
  }

  /**
   * Every call: at most three sleeps, the i-th of `2 ** i` seconds; a stored
   * reading is what is returned; raising means there was no readable backup;
   * `None` means the backup was readable but at least a day old.
   */
  lemma RefreshShape(outcomes: seq<Attempt>, driverOpen: bool, now: int, backup: Option<BackupRecord>)
    requires |outcomes| == MaxRetries
    ensures var run := Refresh(outcomes, driverOpen, now, backup);
      |run.sleeps| <= MaxRetries &&
      run.sleeps == Backoff(0, |run.sleeps|) &&
      (run.stored.Some? ==> run.reply == Returned(run.stored.value.rate)) &&
      (run.reply == Raised ==> backup.None? && run.stored.None?) &&
      (run.reply == ReturnedNone ==> backup.Some? && now - backup.value.timestamp >= BackupMaxAge && run.stored.None?)
  {
    if !Fails(outcomes, 0, driverOpen) {
      RefreshReturnsFirstReading(outcomes, driverOpen, now, backup, 0);
    } else if !Fails(outcomes, 1, driverOpen) {
      RefreshReturnsFirstReading(outcomes, driverOpen, now, backup, 1);
    } else if !Fails(outcomes, 2, driverOpen) {
      RefreshReturnsFirstReading(outcomes, driverOpen, now, backup, 2);
    } else {
      RefreshAfterAllAttemptsFail(outcomes, driverOpen, now, backup);
    }
  }

  /**
   * The price handler's choice: the cached rate while one exists and was
   * taken less than an hour ago, otherwise `None`, meaning refresh.
   */
  function CachedRate(currentRate: Option<real>, lastUpdateTime: Option<int>, now: int): (r: Option<real>)
    requires currentRate.Some? ==> lastUpdateTime.Some?
    ensures r.Some? <==> currentRate.Some? && now - lastUpdateTime.value < FreshnessWindow
    ensures r.Some? ==> r == currentRate
  {
    if currentRate.None? then None
    else if now - lastUpdateTime.value < FreshnessWindow then currentRate
    else None
  }

  /** `get_usd_to_naira_rate` has no positivity check: a page showing "0" yields a cached, returned rate of zero. */
  lemma ZeroRateIsAccepted(outcomes: seq<Attempt>, now: int, backup: Option<BackupRecord>, t: int)
    requires |outcomes| == MaxRetries && outcomes[0] == Attempt(true, Text("0", t))
    ensures Refresh(outcomes, false, now, backup) == RefreshRun(Returned(0.0), Some(Reading(0.0, t)), [])
  {
    assert IsDigits("0");
  }
}
