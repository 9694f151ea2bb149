/**
 * The elapsed-time gate `timespec_difference_at_least`: true when the
 * signed duration `after - before` is negative or at least `min_ns`.
 * It comes in two forms that are meant to agree: a multiplicative form
 * that converts both timestamps to 64-bit nanosecond counts, and a
 * case split on the seconds fields that avoids the multiplication and
 * relies on `min_ns` being under one second.
 */
module TimespecGate {
  import opened Machine

  const ONE_S_IN_NS: int := 1_000_000_000

  /** A `struct timespec`: whole seconds (`time_t`) and nanoseconds (`long`). */
  datatype Timespec = Timespec(sec: int, nsec: int)

  /** A reading in the form `clock_gettime` produces: 64-bit seconds, 0 <= nsec < 1e9. */
  predicate Normal(t: Timespec) {
    InInt64(t.sec) && 0 <= t.nsec < ONE_S_IN_NS
  }

  /** The mathematical signed duration `after - before`, in nanoseconds. */
  function ElapsedNs(after: Timespec, before: Timespec): int {
    (after.sec - before.sec) * ONE_S_IN_NS + (after.nsec - before.nsec)
  }

  /** `after` lies chronologically before `before` (lexicographic order on normal readings). */
  predicate Earlier(after: Timespec, before: Timespec) {
    after.sec < before.sec || (after.sec == before.sec && after.nsec < before.nsec)
  }

  /** What the gate promises: the clock went backwards, or at least `minNs` nanoseconds passed. */
  predicate Enough(after: Timespec, before: Timespec, minNs: int) {
    Earlier(after, before) || ElapsedNs(after, before) >= minNs
  }

  /** `t.sec * 1e9 + t.nsec`, the conversion the multiplicative form performs. */
  function TotalNs(t: Timespec): int {
    t.sec * ONE_S_IN_NS + t.nsec
  }

  /**
   * None of the `int_least64_t` arithmetic of the multiplicative form
   * overflows: both products, both sums and the final difference.
   */
  predicate MulInRange(after: Timespec, before: Timespec) {
    && InInt64(before.sec * ONE_S_IN_NS) && InInt64(TotalNs(before))
    && InInt64(after.sec * ONE_S_IN_NS) && InInt64(TotalNs(after))
    && InInt64(TotalNs(after) - TotalNs(before))
  }

  /** `c_timespec_difference_at_least_mul`, the `SIMPLE_TIMESPEC_DIFFERENCE` form. */
  function DifferenceAtLeastMul(after: Timespec, before: Timespec, minNs: u32): (r: bool)
    requires MulInRange(after, before)
    ensures Normal(after) && Normal(before) ==> (r <==> Enough(after, before, minNs))
  {
    var beforeNs := TotalNs(before);
    var afterNs := TotalNs(after);
    var deltaNs := afterNs - beforeNs;
    deltaNs < 0 || deltaNs >= minNs
  }

  /** `c_timespec_difference_at_least_cases`, the branch form that avoids the multiply. */
  function DifferenceAtLeastCases(after: Timespec, before: Timespec, minNs: u32): (r: bool)
    ensures Normal(after) && Normal(before) && minNs <= ONE_S_IN_NS ==> (r <==> Enough(after, before, minNs))
  {
    if after.sec == before.sec then
      after.nsec - before.nsec >= minNs || after.nsec < before.nsec
    else if after.sec == before.sec + 1 then
      (ONE_S_IN_NS + after.nsec) - before.nsec >= minNs
    else
      true
  }

  /** The two forms agree on normal readings whenever `min_ns` is at most one second. */
  lemma CasesAgreesWithMul(after: Timespec, before: Timespec, minNs: u32)
    requires Normal(after) && Normal(before) && minNs <= ONE_S_IN_NS
    requires MulInRange(after, before)
    ensures DifferenceAtLeastCases(after, before, minNs) == DifferenceAtLeastMul(after, before, minNs)
  {
  }

  /** A timestamp earlier than the reference always opens the case-split gate, whatever `min_ns` is. */
  lemma EarlierAlwaysOpens(after: Timespec, before: Timespec, minNs: u32)
    requires Earlier(after, before)
    ensures DifferenceAtLeastCases(after, before, minNs)
    ensures Normal(after) && Normal(before) && MulInRange(after, before) ==> DifferenceAtLeastMul(after, before, minNs)
  {
  }

  /** Same second: the nanosecond difference stays strictly inside (-1e9, 1e9) and decides alone. */
  lemma SameSecond(after: Timespec, before: Timespec, minNs: u32)
    requires Normal(after) && Normal(before) && after.sec == before.sec
    ensures -ONE_S_IN_NS < after.nsec - before.nsec < ONE_S_IN_NS
    ensures after.nsec - before.nsec == ElapsedNs(after, before)
    ensures DifferenceAtLeastCases(after, before, minNs)
            == (after.nsec - before.nsec >= minNs || after.nsec < before.nsec)
  {
  }

  /** Consecutive seconds: the adjusted difference is the true duration, and it is at least 1. */
  lemma ConsecutiveSeconds(after: Timespec, before: Timespec, minNs: u32)
    requires Normal(after) && Normal(before) && after.sec == before.sec + 1
    ensures (ONE_S_IN_NS + after.nsec) - before.nsec == ElapsedNs(after, before) >= 1
    ensures DifferenceAtLeastCases(after, before, minNs) == ((ONE_S_IN_NS + after.nsec) - before.nsec >= minNs)
  {
  }

  /**
   * Any other relation of the seconds fields: the gate opens without
   * looking at `tv_nsec`, and that is sound because the true duration is
   * negative or more than one second.
   */
  lemma OtherSeconds(after: Timespec, before: Timespec, minNs: u32, afterNs: int, beforeNs: int)
    requires after.sec != before.sec && after.sec != before.sec + 1
    ensures DifferenceAtLeastCases(after, before, minNs)
    ensures DifferenceAtLeastCases(after.(nsec := afterNs), before.(nsec := beforeNs), minNs)
    ensures Normal(after) && Normal(before) ==>
              ElapsedNs(after, before) < 0 || ElapsedNs(after, before) > ONE_S_IN_NS
  {
  }

  /** Lowering the threshold never closes an open gate (both forms). */
  lemma MonotoneInThreshold(after: Timespec, before: Timespec, minNs: u32, lower: u32)
    requires lower <= minNs
    ensures DifferenceAtLeastCases(after, before, minNs) ==> DifferenceAtLeastCases(after, before, lower)
    ensures MulInRange(after, before) && DifferenceAtLeastMul(after, before, minNs) ==>
              DifferenceAtLeastMul(after, before, lower)
  {
  }

  /** Moves a timestamp by `d` whole seconds. */
  function Shift(t: Timespec, d: int): (r: Timespec)
    ensures ElapsedNs(r, t) == d * ONE_S_IN_NS && r.nsec == t.nsec
  {
    t.(sec := t.sec + d)
  }

  /** Shifting both timestamps by the same number of seconds changes neither result. */
  lemma ShiftInvariant(after: Timespec, before: Timespec, minNs: u32, d: int)
    ensures DifferenceAtLeastCases(Shift(after, d), Shift(before, d), minNs)
            == DifferenceAtLeastCases(after, before, minNs)
    ensures MulInRange(after, before) && MulInRange(Shift(after, d), Shift(before, d)) ==>
              DifferenceAtLeastMul(Shift(after, d), Shift(before, d), minNs)
              == DifferenceAtLeastMul(after, before, minNs)
  {
  }

  const FUZZ_SEC_RANGE: int := 16_777_216

  /**
   * On the fuzzed inputs (base seconds within 2^24 of zero, seconds delta
   * within 2^24, normal nanoseconds) no 64-bit arithmetic of the
   * multiplicative form overflows.
   */
  lemma FuzzRangeNoOverflow(after: Timespec, before: Timespec)
    requires -FUZZ_SEC_RANGE <= before.sec <= FUZZ_SEC_RANGE
    requires -FUZZ_SEC_RANGE <= after.sec - before.sec <= FUZZ_SEC_RANGE
    requires 0 <= after.nsec < ONE_S_IN_NS && 0 <= before.nsec < ONE_S_IN_NS
    ensures Normal(after) && Normal(before) && MulInRange(after, before)
  {
  }
}
