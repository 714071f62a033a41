# Exchange-rate refresh and pricing of LuvsAllureCalc, modelled in Dafny

LuvsAllureCalc is a small Flask service that turns a product's cost and
shipping (in USD) into a selling price in USD and in naira. The naira price
uses a black-market USD sell rate scraped with a headless browser. The
scraped rate is cached in memory for an hour and mirrored to a backup file.

This project models the live part of `app.py` (lines 162-334):

- `rate_text.dfy` (module `RateText`): how the scraped text becomes a rate.
  Commas are removed, then the rest is read as Python's `float()` reads a
  plain decimal literal.
- `browser.dfy` (module `Browser`): the `WebManager` class. It has one
  mutable field, `driver`. Two ghost counters record how many browsers
  were started and quit, so the model can state that none is leaked.
- `rate_refresh.dfy` (module `RateRefresh`): the retry, backoff and
  fallback policy of `get_usd_to_naira_rate` as a pure function
  (`Refresh`) of what the outside world does. Lemmas state its closed form.
  This module also holds the one-hour cache freshness decision.
- `pricing.dfy` (module `Pricing`): request validation, the markup formula
  and the conversion to naira, in exact `real` arithmetic.
- `app.dfy` (module `App`): the class `RateService`. It holds the globals
  `current_rate` and `last_update_time`, the backup record, the shared
  `WebManager` and a log of backoff sleeps. `GetUsdToNairaRate` is the
  retry loop, proved equal to `Refresh`. `CalculatePrice` is the request
  handler.
- `wrappers.dfy` (module `Wrappers`): `Option` and `Result`.

The outside world enters as parameters. Each attempt is an `Attempt` value.
It says whether starting a browser would succeed, and whether the page gave
an error or a text together with the clock reading taken after it. The
clock reading for the backup check is `fallbackNow`. The backup file is an
`Option<BackupRecord>`; a missing file and an unreadable one are both `None`.

Behaviour that the code has, and that the model keeps as written:

- A readable backup that is at least a day old makes no decision. The
  inner `try` neither returns nor raises (`app.py:253-260`). The loop then
  sleeps 4 seconds a third time and the function returns `None`. In the
  price handler that `None` is multiplied by a price, so the request fails
  with a 500 from the outer handler (`RefreshAfterAllAttemptsFail`,
  `PriceResponse`).
- There is no positivity check on the scraped rate. A page showing `0` is
  cached, written to the backup and returned (`ZeroRateIsAccepted`). A
  design that rejects a zero rate would differ; the model follows the code.
- A missing backup on exhaustion raises "Failed to get exchange rate". No
  default rate is used.

## Model

| member | source | states |
|---|---|---|
| `RateText.StripCommas` | app.py:236 | the result has no comma left and is never longer than the text |
| `RateText.ParseFloat` | app.py:236 | a parse succeeds only on non-empty text, a negative value needs a leading minus, and a plain digit string reads as its base-10 value |
| `RateText.ParseFloatIsLiteral` | app.py:236 | only a decimal literal parses (optional sign, digits with at most one point, at least one digit); any other text raises `ValueError` |
| `RateText.ParseFloatAcceptsLiterals` | app.py:236 | every decimal literal parses |
| `RateText.ParseFloatOfDecimal` | app.py:236 | `whole.frac` reads as `whole + frac / 10^len(frac)` ("1650.50" is 1650.5) |
| `RateText.ParseFloatSigned` | app.py:236 | an unsigned text, the same text after `+` and the same text after `-` read as its unsigned value, that value again, and its negation; each is rejected exactly when the unsigned text is |
| `RateText.ParseRateIgnoresComma` | app.py:236 | a comma anywhere in the scraped text does not change the rate read from it |
| `RateText.ParseRateOfGrouped` | app.py:236 | any whole number written with thousands separators ("1,650") reads back as that number |
| `RateText.ParseRateRejectsBlank` | app.py:233-236 | empty text, or text made only of commas, never yields a rate |
| `Browser.WebManager.constructor` | app.py:185-186 | a new manager holds no browser and none has been started |
| `Browser.WebManager.InitDriver` | app.py:199-203 | a held browser is kept and nothing is started; with none held, exactly one is started when launching succeeds and nothing changes when it raises |
| `Browser.WebManager.QuitDriver` | app.py:205-209 | afterwards no browser is held; a held one is counted as quit, and with none held nothing changes |
| `RateRefresh.Backoff` | app.py:260 | the k-th backoff sleep lasts `2 ** k` seconds, counting from the given attempt |
| `RateRefresh.ReadAttempt` | app.py:224-238 | an attempt yields a reading iff a browser is available, the page gives non-empty text and that text parses without its commas; the reading carries that rate and the clock reading taken with it |
| `RateRefresh.RefreshReturnsFirstReading` | app.py:222-247 | when attempt k is the first to read a rate, that rate is returned and stored with its timestamp, after exactly k sleeps of 1, ..., `2 ** (k - 1)` seconds |
| `RateRefresh.RefreshAfterAllAttemptsFail` | app.py:249-260 | after three failed attempts nothing is stored; with no readable backup the call raises after sleeps [1, 2]; a backup under a day old is returned after [1, 2]; a stale one gives `None` after [1, 2, 4] |
| `RateRefresh.RefreshShape` | app.py:215-262 | every call makes at most three sleeps, the i-th of `2 ** i` seconds; whatever it stores is what it returns; it raises only without a readable backup and returns `None` only with a stale one |
| `RateRefresh.CachedRate` | app.py:293-301 | the cached rate is used iff one exists and `now - last_update_time < 3600`, strictly; otherwise the rate is refreshed |
| `RateRefresh.ZeroRateIsAccepted` | app.py:233-247 | a page showing "0" on the first attempt returns 0 and stores it in the cache |
| `Pricing.CalculateSellingCost` | app.py:265-269 | `(2x + (0.35x + x)) / 2` equals `1.675 * x` |
| `Pricing.Status` | app.py:289-321 | missing fields, bad number format and negative costs answer 400; rate failures and other exceptions answer 500 |
| `Pricing.ReadField` | app.py:285-286 | a missing key and only a missing key gives `KeyError`; a JSON number is taken as is; a string gives its `float()` value or `ValueError`; null, a list or an object gives another exception (`TypeError`) |
| `Pricing.ValidateRequest` | app.py:284-290 | a request passes iff it is an object whose two fields both read as numbers and neither is negative; it fails with "negative" iff both read and one is below zero; otherwise the fault is that of the first field that cannot be read, and a non-object body is an unexpected error |
| `Pricing.ComputePrices` | app.py:306-308 | the USD price is 1.675 times cost plus shipping, the naira price is that times the rate plus 5000, and the rate is reported back |
| `Pricing.UnreadableFieldAnswers` | app.py:285-286 | a missing key in either field is a 400 "missing fields", a non-numeric string a 400 "invalid number format", a null, list or object value or a non-object body a 500 |
| `Pricing.NegativeCostRejected` | app.py:289-290 | a negative cost price or shipping cost is answered with 400 whatever the rate |
| `Pricing.PricesMonotone` | app.py:306-308 | with non-negative costs and rate, the USD price covers the acquisition cost, the naira price covers the fee, and both grow with the costs |
| `Pricing.PriceOfHundredPlusTwenty` | app.py:306-308 | cost 100 with shipping 20 sells for 201 USD and `201 * rate + 5000` naira |
| `App.PriceResponse` | app.py:302-321 | a returned rate gives the computed prices; a raised lookup gives a 500 rate failure (`RateUnavailable`); a `None` rate fails when it is multiplied and gives a 500 from the outer handler (`Unexpected`) |
| `App.RateService.constructor` | app.py:179-181 | at start-up no rate or update time is cached and no browser is held |
| `App.RateService.ScrapeOnce` | app.py:224-236 | the `try` block up to the parsed rate yields exactly `ReadAttempt`; a held browser is kept, otherwise one is started and held exactly when launching succeeds |
| `App.RateService.AttemptOnce` | app.py:223-262 | one pass of the loop either ends the call as `RefreshFrom` says or sleeps `2 ** k` seconds and continues; the browser is released on every path |
| `App.RateService.GetUsdToNairaRate` | app.py:215-262 | the reply, the cache, the backup and the sleeps are those of `Refresh`; afterwards no browser is held, every browser started has been quit, and at most three were started |
| `App.RateService.CalculatePrice` | app.py:281-321 | invalid requests are answered before any rate lookup and change nothing; a fresh cache is used without touching any state; otherwise the refresh's reply is priced and its effects applied |

## Left out

- Lines 1-160 of `app.py` are a string literal holding an older variant; they never run.
- Selenium, ChromeDriverManager and the Chrome options (`get_chrome_options`, the page load, the 20-second implicit wait, the element lookup) are foreign calls. An attempt's effect is the abstract `Attempt` value.
- `Browser.WebManager.QuitDriver`: quitting is assumed never to raise. In the source a raising `self.driver.quit()` (`app.py:208`) would leave `driver` set, its exception would replace whatever the attempt returned or raised, and the next `init_driver` would keep the dead driver; none of that is modelled, so "no browser held after every attempt" rests on this assumption.
- Clock readings are supplied as whole seconds, not `time.time()` floats. `time.sleep` is recorded in the `slept` log; no time passes in the model.
- Backup file I/O and JSON are abstracted to `Option<BackupRecord>`. A write of the backup that fails after the cache was updated is not modelled; in the source it would count as a failed attempt with the cache already changed. A record whose `rate` is not a number is not modelled either.
- `RateText.ParseFloat`: reads only plain decimals with an optional sign. Python's `float()` also accepts surrounding whitespace, exponents, underscores between digits, `inf` and `nan`; those are not modelled.
- Binary floating point and `round(..., 2)` are not modelled: prices are exact `real`s and are not rounded.
- The hourly APScheduler job and the start-up call both run the same `GetUsdToNairaRate`. The timer, and any concurrency between it and Flask's request threads, are not modelled; only single sequential calls are.
- Flask routing, `jsonify`, CORS, the health endpoint, `__main__`, the environment lookups and the printed log lines are HTTP and CLI glue. Error messages (`str(e)`) are reduced to the `Fault` kind.
- `Pricing.ReadField`: a request body that is not a JSON object, and field values that are null, lists or objects, all become one `Unexpected` 500. JSON booleans are folded into numbers.
