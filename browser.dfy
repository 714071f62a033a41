/**
 * `WebManager`: owner of the one headless browser the scraper drives. The
 * browser itself (Chrome options, driver download, process start and stop)
 * is outside the model; a running browser is the token `Driver`, and two
 * ghost counters record how many were started and quit.
 */
module Browser {
  import opened Wrappers

  datatype Driver = Driver

  class WebManager {
    var driver: Option<Driver>
    ghost var launched: nat
    ghost var quits: nat

    /** Every browser ever started has been quit, except the one held in `driver`. */
    ghost predicate Valid()
      reads this
    {
      launched == quits + (if driver.Some? then 1 else 0)
    }

    constructor ()
      ensures Valid() && driver.None? && launched == 0 && quits == 0
    {
      driver := None;
      launched := 0;
      quits := 0;
    }

    /**
     * `init_driver`: start a browser only when none is held. `launches` is
     * whether starting one would succeed; `ok` is false when it raised.
     */
    method InitDriver(launches: bool) returns (ok: bool)
      requires Valid()
      modifies this
      ensures Valid()
      ensures old(driver).Some? ==> ok && driver == old(driver) && launched == old(launched) && quits == old(quits)
      ensures old(driver).None? ==> ok == launches && quits == old(quits)
      ensures old(driver).None? && ok ==> driver == Some(Driver) && launched == old(launched) + 1
      ensures old(driver).None? && !ok ==> driver.None? && launched == old(launched)
    {
      ok := true;
      if driver.None? {
        if launches {
          driver := Some(Driver);
          launched := launched + 1;
        } else {
          ok := false;
        }
      }
    }

    /** `quit_driver`: stop the held browser, if any, and forget it. */
    method QuitDriver()
      requires Valid()
      modifies this
      ensures Valid() && driver.None? && launched == old(launched)
      ensures quits == old(quits) + (if old(driver).Some? then 1 else 0)
    {
      if driver.Some? {
        quits := quits + 1;
        driver := None;
      }
    }
  }
}
