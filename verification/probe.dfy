/**
 * The stop-check callbacks of interruptible.c: the `periodic_signal_check`
 * record and the callbacks `simple_interruptible_check`,
 * `timed_interruptible_check` and `timed_coarse_interruptible_check`.
 * The clocks and `PyErr_CheckSignals` are outside the model; an `Env`
 * object hands out their successive answers from streams fixed in advance.
 */
module Probe {
  import opened Machine

  /** Which callback the record's `base.check` points at. */
  datatype CheckKind = Simple | Timed | TimedCoarse

  /**
   * The outside world seen by the callbacks. `fineClock(i)` and
   * `coarseClock(i)` are the `CLOCK_MONOTONIC` and
   * `CLOCK_MONOTONIC_COARSE` readings (as 64-bit nanosecond counts) at the
   * i-th clock read; `signals(j)` is what the j-th `PyErr_CheckSignals`
   * call returns (0, or -1 with an exception set).
   */
  class Env {
    const fineClock: nat -> u64
    const coarseClock: nat -> u64
    const signals: nat -> int
    var clockReads: nat
    var signalChecks: nat

    constructor (fineClock: nat -> u64, coarseClock: nat -> u64, signals: nat -> int)
      ensures this.fineClock == fineClock && this.coarseClock == coarseClock && this.signals == signals
      ensures clockReads == 0 && signalChecks == 0
    {
      this.fineClock := fineClock;
      this.coarseClock := coarseClock;
      this.signals := signals;
      clockReads := 0;
      signalChecks := 0;
    }

    /** `monotonic_now_ns` (or its coarse twin): the next reading of the chosen clock. */
    method NowNs(coarse: bool) returns (t: u64)
      modifies this`clockReads
      ensures t == (if coarse then coarseClock(old(clockReads)) else fineClock(old(clockReads)))
      ensures clockReads == old(clockReads) + 1
    {
      t := if coarse then coarseClock(clockReads) else fineClock(clockReads);
      clockReads := clockReads + 1;
    }

    /** `PyErr_CheckSignals`, called with the GIL held. */
    method CheckSignals() returns (err: int)
      modifies this`signalChecks
      ensures err == signals(old(signalChecks))
      ensures signalChecks == old(signalChecks) + 1
    {
      err := signals(signalChecks);
      signalChecks := signalChecks + 1;
    }
  }

  /** The mutable part of a probe together with the environment's counters. */
  datatype ProbeView = ProbeView(lastCheck: u64, count: u64, clockReads: nat, signalChecks: nat)

  /** The fixed part: the callback, the interval, and the environment's streams. */
  datatype ProbeConfig = ProbeConfig(
    kind: CheckKind, between: u64,
    fineClock: nat -> u64, coarseClock: nat -> u64, signals: nat -> int)

  /** The timed gate stays shut while `(now - last) mod 2^64 < between`. */
  predicate GateShut(now: u64, last: u64, between: u64) {
    Sub64(now, last) < between
  }

  /** `simple_interruptible_check`: count one check and return `PyErr_CheckSignals`. */
  function Escalate(cfg: ProbeConfig, v: ProbeView): (int, ProbeView) {
    (cfg.signals(v.signalChecks), v.(count := Inc64(v.count), signalChecks := v.signalChecks + 1))
  }

  /** One call of `base.check`: its return value and the state afterwards. */
  function CheckStep(cfg: ProbeConfig, v: ProbeView): (int, ProbeView) {
    match cfg.kind
    case Simple => Escalate(cfg, v)
    case _ =>
      var now := if cfg.kind.TimedCoarse? then cfg.coarseClock(v.clockReads) else cfg.fineClock(v.clockReads);
      var v' := v.(clockReads := v.clockReads + 1);
      if GateShut(now, v.lastCheck, cfg.between) then (0, v')
      else Escalate(cfg, v'.(lastCheck := now))
  }

  /** The clock reading a timed callback takes at its next call. */
  function NextReading(cfg: ProbeConfig, v: ProbeView): u64 {
    if cfg.kind.TimedCoarse? then cfg.coarseClock(v.clockReads) else cfg.fineClock(v.clockReads)
  }

  /** The simple callback escalates on every call: one more check, the signal result unchanged. */
  lemma SimpleAlwaysEscalates(cfg: ProbeConfig, v: ProbeView)
    requires cfg.kind.Simple?
    ensures var (rv, w) := CheckStep(cfg, v);
            && rv == cfg.signals(v.signalChecks)
            && w == v.(count := Inc64(v.count), signalChecks := v.signalChecks + 1)
  {
  }

  /**
   * A timed callback either leaves everything but the clock counter alone
   * and returns 0, or records the reading, counts one check and returns the
   * signal result; which one is decided by the wrap-around gate.
   */
  lemma TimedGate(cfg: ProbeConfig, v: ProbeView)
    requires !cfg.kind.Simple?
    ensures var (rv, w) := CheckStep(cfg, v);
            var now := NextReading(cfg, v);
            && w.clockReads == v.clockReads + 1
            && (GateShut(now, v.lastCheck, cfg.between) ==>
                  rv == 0 && w == v.(clockReads := v.clockReads + 1))
            && (!GateShut(now, v.lastCheck, cfg.between) ==>
                  && rv == cfg.signals(v.signalChecks)
                  && w == ProbeView(now, Inc64(v.count), v.clockReads + 1, v.signalChecks + 1))
  {
  }

  /** With `ns_between_checks == 0` every timed call escalates: unsigned `x < 0` never holds. */
  lemma ZeroIntervalAlwaysEscalates(cfg: ProbeConfig, v: ProbeView)
    requires cfg.between == 0
    ensures CheckStep(cfg, v).1.count == Inc64(v.count)
    ensures CheckStep(cfg, v).1.signalChecks == v.signalChecks + 1
  {
  }

  /**
   * A backwards clock step still escalates whenever the wrapped difference
   * `2^64 - (last - now)` reaches the interval.
   */
  lemma BackwardsStepEscalates(now: u64, last: u64, between: u64)
    requires now < last && last - now <= U64 - between
    ensures !GateShut(now, last, between)
  {
  }

  /** The state after `n` successive calls of `base.check`. */
  function Steps(cfg: ProbeConfig, v: ProbeView, n: nat): ProbeView
    decreases n
  {
    if n == 0 then v else Steps(cfg, CheckStep(cfg, v).1, n - 1)
  }

  /** What the call numbered `n` (from 0) returns, for a callback starting in state `v`. */
  function Answer(cfg: ProbeConfig, v: ProbeView, n: nat): int
    decreases n
  {
    if n == 0 then CheckStep(cfg, v).0 else Answer(cfg, CheckStep(cfg, v).1, n - 1)
  }

  /** The call after `n` calls returns `Answer(cfg, v, n)` and leaves the state after `n + 1` calls. */
  lemma {:induction false} StepsNext(cfg: ProbeConfig, v: ProbeView, n: nat)
    ensures CheckStep(cfg, Steps(cfg, v, n)) == (Answer(cfg, v, n), Steps(cfg, v, n + 1))
    decreases n
  {
    if n > 0 {
      StepsNext(cfg, CheckStep(cfg, v).1, n - 1);
    }
  }

  /** With interval 0 (or the simple callback), `n` calls escalate exactly `n` times. */
  lemma {:induction false} EveryCallEscalates(cfg: ProbeConfig, v: ProbeView, n: nat)
    requires cfg.kind.Simple? || cfg.between == 0
    ensures Steps(cfg, v, n).signalChecks == v.signalChecks + n
    ensures Steps(cfg, v, n).count == (v.count + n) % U64
    decreases n
  {
    if n > 0 {
      EveryCallEscalates(cfg, CheckStep(cfg, v).1, n - 1);
    }
  }

  /** The clock stream of the configured callback never goes backwards from index `from` on. */
  ghost predicate ClockMonotoneFrom(cfg: ProbeConfig, from: nat) {
    forall i, j :: from <= i <= j ==> ReadingAt(cfg, i) <= ReadingAt(cfg, j)
  }

  function ReadingAt(cfg: ProbeConfig, i: nat): u64 {
    if cfg.kind.TimedCoarse? then cfg.coarseClock(i) else cfg.fineClock(i)
  }

  /**
   * Escalation bound: with a positive interval and a clock that never goes
   * backwards and never reads below the starting `last_check`, every
   * escalation after the start is at least `between` nanoseconds after the
   * previous one, so escalations times interval never exceed the time that
   * passed between the starting `last_check` and the last recorded check.
   */
  lemma {:induction false} EscalationBound(cfg: ProbeConfig, v: ProbeView, n: nat)
    requires !cfg.kind.Simple? && cfg.between > 0
    requires ClockMonotoneFrom(cfg, v.clockReads)
    requires v.lastCheck <= ReadingAt(cfg, v.clockReads)
    ensures Steps(cfg, v, n).clockReads == v.clockReads + n
    ensures v.lastCheck <= Steps(cfg, v, n).lastCheck <= ReadingAt(cfg, v.clockReads + n)
    ensures (Steps(cfg, v, n).signalChecks - v.signalChecks) * cfg.between
            <= Steps(cfg, v, n).lastCheck - v.lastCheck
    decreases n
  {
    if n > 0 {
      var w := CheckStep(cfg, v).1;
      var now := ReadingAt(cfg, v.clockReads);
      assert NextReading(cfg, v) == now;
      assert now <= ReadingAt(cfg, v.clockReads + 1);
      if !GateShut(now, v.lastCheck, cfg.between) {
        assert Sub64(now, v.lastCheck) == now - v.lastCheck;
      }
      assert (w.signalChecks - v.signalChecks) * cfg.between <= w.lastCheck - v.lastCheck;
      EscalationBound(cfg, w, n - 1);
      var u := Steps(cfg, w, n - 1);
      assert (u.signalChecks - w.signalChecks) * cfg.between + (w.signalChecks - v.signalChecks) * cfg.between
             == (u.signalChecks - v.signalChecks) * cfg.between;
    }
  }

  /**
   * A `periodic_signal_check` record. `kind` is the callback stored in
   * `base.check`.
   */
  /**
   * Ghost bookkeeping kept beside a callback record: how many times its
   * `check` has been called, and, in call-count order, the count at which
   * each butterfly of a transform run under it was performed.
   */
  class Trace {
    ghost var calls: nat
    ghost var combined: seq<nat>

    constructor ()
      ensures calls == 0 && combined == []
    {
      calls := 0;
      combined := [];
    }
  }

  class PeriodicSignalCheck {
    const kind: CheckKind
    const trace: Trace
    var nsLastCheck: u64
    const nsBetweenChecks: u64
    var checkCount: u64

    /** The initialisation done by `simple_interruptible` and `timed_interruptible`. */
    constructor (kind: CheckKind, nsBetweenChecks: u64)
      ensures this.kind == kind && this.nsBetweenChecks == nsBetweenChecks
      ensures nsLastCheck == 0 && checkCount == 0
      ensures fresh(trace) && trace.calls == 0 && trace.combined == []
    {
      trace := new Trace();
      this.kind := kind;
      this.nsBetweenChecks := nsBetweenChecks;
      nsLastCheck := 0;
      checkCount := 0;
    }

    function Config(env: Env): ProbeConfig {
      ProbeConfig(kind, nsBetweenChecks, env.fineClock, env.coarseClock, env.signals)
    }

    function View(env: Env): ProbeView
      reads this, env
    {
      ProbeView(nsLastCheck, checkCount, env.clockReads, env.signalChecks)
    }

    /** `simple_interruptible_check`. */
    method SimpleCheck(env: Env) returns (rv: int)
      modifies this`checkCount, env`signalChecks
      ensures checkCount == Inc64(old(checkCount))
      ensures rv == env.signals(old(env.signalChecks)) && env.signalChecks == old(env.signalChecks) + 1
    {
      checkCount := Inc64(checkCount);
      rv := env.CheckSignals();
    }

    /**
     * `timed_interruptible_check` (`coarse` false) and
     * `timed_coarse_interruptible_check` (`coarse` true); they differ only
     * in the clock they read.
     */
    method TimedCheck(env: Env, coarse: bool) returns (rv: int)
      modifies this`nsLastCheck, this`checkCount, env`clockReads, env`signalChecks
      ensures var now := if coarse then env.coarseClock(old(env.clockReads)) else env.fineClock(old(env.clockReads));
              && env.clockReads == old(env.clockReads) + 1
              && (GateShut(now, old(nsLastCheck), nsBetweenChecks) ==>
                    && rv == 0 && nsLastCheck == old(nsLastCheck) && checkCount == old(checkCount)
                    && env.signalChecks == old(env.signalChecks))
              && (!GateShut(now, old(nsLastCheck), nsBetweenChecks) ==>
                    && nsLastCheck == now && checkCount == Inc64(old(checkCount))
                    && rv == env.signals(old(env.signalChecks))
                    && env.signalChecks == old(env.signalChecks) + 1)
    {
      var nowNs := env.NowNs(coarse);
      if GateShut(nowNs, nsLastCheck, nsBetweenChecks) {
        return 0;
      }
      nsLastCheck := nowNs;
      rv := SimpleCheck(env);
    }

    /** `should_stop->check(should_stop)`: calls whichever callback the record holds. */
    method Check(env: Env) returns (rv: int)
      modifies this, env, trace
      ensures (rv, View(env)) == CheckStep(Config(env), old(View(env)))
      ensures trace.calls == old(trace.calls) + 1 && trace.combined == old(trace.combined)
    {
      trace.calls := trace.calls + 1;
      match kind {
        case Simple => rv := SimpleCheck(env);
        case Timed => rv := TimedCheck(env, false);
        case TimedCoarse => rv := TimedCheck(env, true);
      }
    }
  }
}
