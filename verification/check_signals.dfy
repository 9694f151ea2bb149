/**
 * CheckSignalsOftenEnough: a process-wide gate, holding the time of the
 * last signal check in a static variable, that calls `PyErr_CheckSignals`
 * at most about once per millisecond of `CLOCK_MONOTONIC_COARSE` time.
 */
module CheckSignals {
  import opened Machine
  import opened TimespecGate

  const ONE_MS_IN_NS: u32 := 1_000_000

  /** The two builds of `timespec_difference_at_least`, chosen by `SIMPLE_TIMESPEC_DIFFERENCE`. */
  datatype Build = SimpleTimespecDifference | CaseSplit

  /**
   * `timespec_difference_at_least` of CheckSignalsOftenEnough.c. Whichever
   * build is compiled, on normal readings and a threshold under one second
   * the answer is the gate's promise.
   */
  function TimespecDifferenceAtLeast(build: Build, after: Timespec, before: Timespec, minNs: u32): (r: bool)
    requires build.SimpleTimespecDifference? ==> MulInRange(after, before)
    ensures Normal(after) && Normal(before) && minNs < ONE_S_IN_NS ==> (r <==> Enough(after, before, minNs))
  {
    match build
    case SimpleTimespecDifference => DifferenceAtLeastMul(after, before, minNs)
    case CaseSplit => DifferenceAtLeastCases(after, before, minNs)
  }

  /** The two builds return the same truth value wherever both are defined. */
  lemma BuildsAgree(after: Timespec, before: Timespec, minNs: u32)
    requires Normal(after) && Normal(before) && minNs < ONE_S_IN_NS && MulInRange(after, before)
    ensures TimespecDifferenceAtLeast(SimpleTimespecDifference, after, before, minNs)
            == TimespecDifferenceAtLeast(CaseSplit, after, before, minNs)
  {
  }

  /**
   * The static state of `CheckSignalsOftenEnough`: `last_check`, which
   * starts at { 0, 0 }, and the build the file was compiled with.
   */
  class SignalCheckGate {
    const build: Build
    var lastCheck: Timespec

    constructor (build: Build)
      ensures this.build == build && lastCheck == Timespec(0, 0) && Normal(lastCheck)
    {
      this.build := build;
      lastCheck := Timespec(0, 0);
    }

    /**
     * One call. `now` is the `CLOCK_MONOTONIC_COARSE` reading and
     * `checkSignals` what `PyErr_CheckSignals` returns if it is called.
     */
    method CheckSignalsOftenEnough(now: Timespec, checkSignals: int) returns (err: int)
      requires build.SimpleTimespecDifference? ==> MulInRange(now, lastCheck)
      modifies this
      ensures var opens := TimespecDifferenceAtLeast(build, now, old(lastCheck), ONE_MS_IN_NS);
              && (!opens ==> err == 0 && lastCheck == old(lastCheck))
              && (opens ==> err == checkSignals && lastCheck == now)
      ensures Normal(now) && Normal(old(lastCheck)) ==>
                if Enough(now, old(lastCheck), ONE_MS_IN_NS)
                then err == checkSignals && lastCheck == now
                else err == 0 && lastCheck == old(lastCheck)
      ensures Normal(old(lastCheck)) && Normal(now) ==> Normal(lastCheck)
    {
      if !TimespecDifferenceAtLeast(build, now, lastCheck, ONE_MS_IN_NS) {
        return 0;
      }
      lastCheck := now;
      err := checkSignals;
    }
  }
}
