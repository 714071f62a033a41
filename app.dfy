/**
 * The service's mutable state and its two operations that touch it: the
 * globals `current_rate` and `last_update_time`, the backup file, the
 * shared `WebManager`, and a log of the backoff sleeps made so far.
 */
module App {
  import opened Wrappers
  import opened RateText
  import opened Browser
  import opened RateRefresh
  import opened Pricing

  /** What the price handler answers once it holds a `Reply` from the rate lookup; `None` times a price is a `TypeError`. */
  function PriceResponse(costs: Costs, reply: Reply): (resp: Response)
    ensures resp.Priced? <==> reply.Returned?
    ensures reply.Returned? ==> resp.quote == ComputePrices(costs, reply.rate)
    ensures resp.Error? ==> resp.status == 500
    ensures reply == Raised ==> resp == Error(500, RateUnavailable)
    ensures reply == ReturnedNone ==> resp == Error(500, Unexpected)
  {
    match reply
    case Returned(rate) => Priced(ComputePrices(costs, rate))
    case Raised => Error(Status(RateUnavailable), RateUnavailable)
    case ReturnedNone => Error(Status(Unexpected), Unexpected)
  }

  class RateService {
    var currentRate: Option<real>
    var lastUpdateTime: Option<int>
    var backup: Option<BackupRecord>
    var slept: seq<nat>
    const web: WebManager

    /** The rate and its timestamp are set together, and no browser but the held one is left running. */
    ghost predicate Valid()
      reads this, web
    {
      web.Valid() && (currentRate.Some? <==> lastUpdateTime.Some?)
    }

    /** Start-up state: nothing cached yet, whatever backup is on disk, no browser. */
    constructor (saved: Option<BackupRecord>)
      ensures Valid() && fresh(web)
      ensures currentRate.None? && lastUpdateTime.None? && backup == saved && slept == []
      ensures web.driver.None? && web.launched == 0
    {
      currentRate := None;
      lastUpdateTime := None;
      backup := saved;
      slept := [];
      web := new WebManager();
    }

    /** The state after a refresh whose effect is `run`: sleeps logged, browser released, and a stored reading in both cache and backup. */
    twostate predicate Applied(run: RefreshRun)
      reads this, web
    {
      slept == old(slept) + run.sleeps &&
      web.driver.None? && web.launched == web.quits &&
      match run.stored
      case Some(reading) =>
        currentRate == Some(reading.rate) && lastUpdateTime == Some(reading.at) &&
        backup == Some(BackupRecord(reading.rate, reading.at))
      case None =>
        currentRate == old(currentRate) && lastUpdateTime == old(lastUpdateTime) && backup == old(backup)
    }

    /**
     * The `try` block of one attempt up to the parsed rate: start a browser
     * unless one is held, read the sell-rate text, refuse an empty text, and
     * parse it without its commas.
     */
    method ScrapeOnce(a: Attempt) returns (reading: Option<Reading>)
      requires Valid()
      modifies web
      ensures Valid()
      ensures reading == ReadAttempt(a, old(web.driver.Some?))
      ensures web.driver == (if old(web.driver).Some? then old(web.driver) else if a.launches then Some(Driver) else None)
      ensures web.launched == old(web.launched) + (if old(web.driver).None? && a.launches then 1 else 0)
      ensures web.quits == old(web.quits)
    {
      var ok := web.InitDriver(a.launches);
      reading := None;
      if ok && a.page.Text? {
        var text := a.page.text;
        if text != [] {
          var parsed := ParseRate(text);
          if parsed.Some? {
            reading := Some(Reading(parsed.value, a.page.readAt));
          }
        }
      }
    }

    /**
     * One pass of the retry loop, `try`, `except` and `finally` together:
     * `exit` is how the call ends at attempt `k`, or `None` when the loop
     * goes on to the next attempt after a backoff sleep.
     */
    method AttemptOnce(a: Attempt, k: nat, fallbackNow: int, ghost readings: seq<Option<Reading>>) returns (exit: Option<Reply>)
      requires Valid() && |readings| == MaxRetries && k < MaxRetries
      requires readings[k] == ReadAttempt(a, web.driver.Some?)
      modifies this, web
      ensures Valid()
      ensures web.launched <= old(web.launched) + 1
      ensures var rest := RefreshFrom(readings, k, fallbackNow, old(backup));
        exit.Some? ==> rest.reply == exit.value && rest.sleeps == [] && Applied(rest)
      ensures exit.None? ==>
        RefreshFrom(readings, k, fallbackNow, old(backup)) ==
          Delayed([Pow2(k)], RefreshFrom(readings, k + 1, fallbackNow, backup)) &&
        Applied(RefreshRun(ReturnedNone, None, [Pow2(k)]))
    {
      // try
      var reading := ScrapeOnce(a);
      exit := None;
      if reading.Some? {
        currentRate := Some(reading.value.rate);
        lastUpdateTime := Some(reading.value.at);
        backup := Some(BackupRecord(reading.value.rate, reading.value.at));
        exit := Some(Returned(reading.value.rate));
      } else {
        // except: on the last attempt consult the backup, then back off
        if k == MaxRetries - 1 {
          if backup.None? {
            exit := Some(Raised);
          } else if fallbackNow - backup.value.timestamp < BackupMaxAge {
            exit := Some(Returned(backup.value.rate));
          }
        }
        if exit.None? {
          slept := slept + [Pow2(k)];
        }
      }
      // finally
      web.QuitDriver();
    }

    /**
     * `get_usd_to_naira_rate`: up to three attempts with backoff, then the
     * backup. `outcomes[i]` is what the world does on attempt `i`;
     * `fallbackNow` is the clock reading taken for the backup check.
     */
    method GetUsdToNairaRate(outcomes: seq<Attempt>, fallbackNow: int) returns (reply: Reply)
      requires Valid() && |outcomes| == MaxRetries
      modifies this, web
      ensures Valid()
      ensures var run := Refresh(outcomes, old(web.driver.Some?), fallbackNow, old(backup));
        reply == run.reply && Applied(run)
      ensures web.launched <= old(web.launched) + MaxRetries
    {
      ghost var readings := Readings(outcomes, web.driver.Some?);
      ghost var run := RefreshFrom(readings, 0, fallbackNow, backup);
      ghost var done: seq<nat> := [];
      var attempt: nat := 0;
      assert run == Delayed(done, run) by {
        assert [] + run.sleeps == run.sleeps;
      }
      while attempt < MaxRetries
        invariant attempt <= MaxRetries
        invariant Valid()
        invariant attempt > 0 ==> web.driver.None?
        invariant attempt == 0 ==> web.driver == old(web.driver)
        invariant slept == old(slept) + done
        invariant currentRate == old(currentRate) && lastUpdateTime == old(lastUpdateTime) && backup == old(backup)
        invariant web.launched <= old(web.launched) + attempt
        invariant run == Delayed(done, RefreshFrom(readings, attempt, fallbackNow, backup))
      {
        ghost var rest := RefreshFrom(readings, attempt, fallbackNow, backup);
        assert readings[attempt] == ReadAttempt(outcomes[attempt], web.driver.Some?);
        var exit := AttemptOnce(outcomes[attempt], attempt, fallbackNow, readings);
        if exit.Some? {
          reply := exit.value;
          assert run == Delayed(done, rest);
          return;
        }
        ghost var next := RefreshFrom(readings, attempt + 1, fallbackNow, backup);
        assert done + ([Pow2(attempt)] + next.sleeps) == (done + [Pow2(attempt)]) + next.sleeps;
        done := done + [Pow2(attempt)];
        attempt := attempt + 1;
      }
      reply := ReturnedNone;
    }

    /**
     * `calculate_price`: validate the request, serve the cached rate while
     * it is under an hour old or refresh it otherwise, then price. `now` is
     * the clock reading for the freshness test; `outcomes` and
     * `fallbackNow` are used only if a refresh happens.
     */
    method CalculatePrice(req: Request, now: int, outcomes: seq<Attempt>, fallbackNow: int) returns (resp: Response)
      requires Valid() && |outcomes| == MaxRetries
      modifies this, web
      ensures Valid()
      ensures ValidateRequest(req).Failure? ==>
        resp == Error(Status(ValidateRequest(req).error), ValidateRequest(req).error) &&
        unchanged(this) && unchanged(web)
      ensures ValidateRequest(req).Success? && CachedRate(old(currentRate), old(lastUpdateTime), now).Some? ==>
        resp == Priced(ComputePrices(ValidateRequest(req).value, old(currentRate).value)) &&
        unchanged(this) && unchanged(web)
      ensures ValidateRequest(req).Success? && CachedRate(old(currentRate), old(lastUpdateTime), now).None? ==>
        var run := Refresh(outcomes, old(web.driver.Some?), fallbackNow, old(backup));
        resp == PriceResponse(ValidateRequest(req).value, run.reply) && Applied(run)
    {
      var costs := ValidateRequest(req);
      if costs.Failure? {
        return Error(Status(costs.error), costs.error);
      }
      var reply: Reply;
      var cached := CachedRate(currentRate, lastUpdateTime, now);
      if cached.Some? {
        reply := Returned(cached.value);
      } else {
        reply := GetUsdToNairaRate(outcomes, fallbackNow);
      }
      resp := PriceResponse(costs.value, reply);
    }
  }
}
