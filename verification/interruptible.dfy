/**
 * The shared driver of interruptible.c: `maybe_interruptible_get_buffers`,
 * which validates the two buffers, and `maybe_interruptible`, which times
 * one transform, runs the callback once before it and reports the elapsed
 * time and the number of signal checks, or raises `Interrupted` with that
 * same report.
 */
module Interruptible {
  import opened Machine
  import opened Probe
  import opened KissFft

  /** `sizeof(kiss_fft_cpx)`: two `float`s. */
  const CPX_BYTES: nat := 8

  /** Why the driver returned without a result (the Python exception it leaves set). */
  datatype Failure =
    | BufferRefused    // `PyObject_GetBuffer` failed on one of the two objects
    | SizeMismatch     // "input and output must be same size"
    | NoSamples        // "not enough samples: have 0 need 1"
    | TooManySamples   // "too many samples: have %zd limit %zd"
    | OutOfMemory      // `kiss_fft_alloc` returned 0
    | BadSampleCount   // `kiss_fft_alloc` returned -1: not a power of two

  /** What `maybe_interruptible_get_buffers` returns: the sample count, or -1 with an exception. */
  datatype BufferCheck = Sized(samples: nat) | Refused(why: Failure)

  /**
   * `maybe_interruptible_get_buffers`: `got1` and `got2` say whether
   * `PyObject_GetBuffer` succeeded on each object, `len1` and `len2` are the
   * byte lengths. The sample count is the byte length over `CPX_BYTES`,
   * rounded down.
   */
  function GetBuffers(got1: bool, len1: nat, got2: bool, len2: nat): (r: BufferCheck)
    ensures r.Sized? <==>
              got1 && got2 && len1 == len2 && CPX_BYTES <= len1 < CPX_BYTES * (KISS_FFT_MAX_SAMPLES + 1)
    ensures r.Sized? ==>
              && 1 <= r.samples <= KISS_FFT_MAX_SAMPLES < U32
              && r.samples * CPX_BYTES <= len1 < (r.samples + 1) * CPX_BYTES
    ensures got1 && got2 && len1 != len2 ==> r == Refused(SizeMismatch)
    ensures got1 && got2 && len1 == len2 && len1 < CPX_BYTES ==> r == Refused(NoSamples)
    ensures got1 && got2 && len1 == len2 && len1 >= CPX_BYTES * (KISS_FFT_MAX_SAMPLES + 1) ==> r == Refused(TooManySamples)
    ensures !got1 || !got2 ==> r == Refused(BufferRefused)
  {
    if !got1 || !got2 then Refused(BufferRefused)
    else if len1 != len2 then Refused(SizeMismatch)
    else if len1 / CPX_BYTES == 0 then Refused(NoSamples)
    else if len1 / CPX_BYTES > KISS_FFT_MAX_SAMPLES then Refused(TooManySamples)
    else Sized(len1 / CPX_BYTES)
  }

  /** The tuple `(elapsed, check_count)`; the elapsed time is kept in nanoseconds. */
  datatype Report = Report(elapsedNs: u64, checks: u64)

  datatype Outcome = Failed(why: Failure) | Completed(report: Report) | Interrupted(report: Report)

  /**
   * The callback calls of one transform, counted from the state `v1` the
   * callback is in just before the call `maybe_interruptible` makes itself
   * (call 0); `kiss_fft` makes the rest, from call 1 on, only when call 0
   * returned 0.
   */
  ghost function Session(cfg: ProbeConfig, v1: ProbeView, st: State): Run
    requires st.Valid()
  {
    if Answer(cfg, v1, 0) != 0 then Run(1, Answer(cfg, v1, 0)) else FftRun(cfg, v1, st, 1)
  }

  /**
   * A session stops at the first non-zero answer, before or during the
   * transform, and returns it; a session that returns 0 saw only zero
   * answers. Without a pending signal it always completes, after one call
   * plus two per frame of the transform.
   */
  lemma SessionStops(cfg: ProbeConfig, v1: ProbeView, st: State)
    requires st.Valid()
    ensures var r := Session(cfg, v1, st);
            && (r.rv != 0 ==> StopsAtFirstNonZero(cfg, v1, 0, r))
            && (r.rv == 0 ==> 0 < r.next && AllZero(cfg, v1, 0, r.next))
    ensures Quiet(cfg) ==>
              Session(cfg, v1, st) == Run(1 + (if st.n >= 2 then 2 * Frames(st.factors) else 2), 0)
  {
    FftRunStops(cfg, v1, st, 1);
    if Quiet(cfg) {
      QuietAnswer(cfg, v1, 0);
    }
  }

  /**
   * With the simple callback and no pending signal, the reported count is
   * the one the record started with plus the driver's own increment plus
   * one per callback call: two per frame, and one more before the
   * transform.
   */
  lemma SimpleSessionChecks(cfg: ProbeConfig, v1: ProbeView, st: State)
    requires cfg.kind.Simple? && Quiet(cfg) && st.Valid()
    ensures var w := Steps(cfg, v1, Session(cfg, v1, st).next);
            var frames := if st.n >= 2 then Frames(st.factors) else 1;
            && w.count == (v1.count + 1 + 2 * frames) % U64
            && w.signalChecks == v1.signalChecks + 1 + 2 * frames
  {
    SessionStops(cfg, v1, st);
    EveryCallEscalates(cfg, v1, Session(cfg, v1, st).next);
  }

  /**
   * Pacing of the timed callback over a session: because the driver sets
   * `ns_last_check` to the start time read from the same clock, the
   * `PyErr_CheckSignals` calls made in the first `k` callback calls, times
   * the interval, never exceed the time since the start.
   */
  lemma TimedSessionPaced(cfg: ProbeConfig, v1: ProbeView, k: nat)
    requires cfg.kind.Timed? && cfg.between > 0 && v1.clockReads >= 1
    requires v1.lastCheck == cfg.fineClock(v1.clockReads - 1)
    requires ClockMonotoneFrom(cfg, v1.clockReads - 1)
    ensures var w := Steps(cfg, v1, k);
            (w.signalChecks - v1.signalChecks) * cfg.between
              <= ReadingAt(cfg, v1.clockReads + k) - v1.lastCheck
  {
    assert ReadingAt(cfg, v1.clockReads - 1) == v1.lastCheck;
    assert ReadingAt(cfg, v1.clockReads - 1) <= ReadingAt(cfg, v1.clockReads);
    EscalationBound(cfg, v1, k);
  }

  /**
   * The coarse callback compares coarse readings with a start time taken
   * from the fine clock: when the coarse clock lags behind that start, the
   * unsigned difference wraps and the first callback call checks signals
   * at once, for any interval up to 2^64 nanoseconds less the lag.
   */
  lemma CoarseLagEscalates(cfg: ProbeConfig, v1: ProbeView)
    requires cfg.kind.TimedCoarse? && v1.clockReads >= 1
    requires v1.lastCheck == cfg.fineClock(v1.clockReads - 1)
    requires cfg.coarseClock(v1.clockReads) < v1.lastCheck
    requires v1.lastCheck - cfg.coarseClock(v1.clockReads) <= U64 - cfg.between
    ensures Answer(cfg, v1, 0) == cfg.signals(v1.signalChecks)
    ensures Steps(cfg, v1, 1).count == Inc64(v1.count)
  {
    BackwardsStepEscalates(cfg.coarseClock(v1.clockReads), v1.lastCheck, cfg.between);
    TimedGate(cfg, v1);
  }

  /**
   * `maybe_interruptible` with a callback record `probe`. The input
   * samples are `td`, of `tdBytes` bytes; the output buffer is `fd`, of
   * `fdBytes` bytes. `got1`, `got2`, `mallocOk` are the outcomes of the
   * calls into Python and the allocator; `junk` and `cis` are as for
   * `KissFftAlloc`. The two clock reads around the transform use the fine
   * clock. `log` is what the transform's butterflies appended to the
   * trace of `probe`.
   */
  method MaybeInterruptible(
    probe: PeriodicSignalCheck, env: Env,
    got1: bool, td: seq<Cpx>, tdBytes: nat, got2: bool, fd: array<Cpx>, fdBytes: nat,
    mallocOk: bool, junk: Factor, cis: (nat, nat) -> Cpx)
    returns (out: Outcome, ghost log: seq<nat>)
    requires |td| == tdBytes / CPX_BYTES && fd.Length == fdBytes / CPX_BYTES
    modifies probe, env, fd, probe.trace
    ensures probe.trace.combined == old(probe.trace.combined) + log
    ensures out.Failed? ==> fd[..] == old(fd[..])
    ensures var g := GetBuffers(got1, tdBytes, got2, fdBytes);
            g.Refused? ==> out == Failed(g.why) && probe.View(env) == old(probe.View(env)) && log == []
    ensures var g := GetBuffers(got1, tdBytes, got2, fdBytes);
            g.Sized? ==>
              var n := g.samples;
              var c0 := old(env.clockReads);
              var start := env.fineClock(c0);
              var last := if probe.nsBetweenChecks != 0 then start else old(probe.nsLastCheck);
              var v1 := ProbeView(last, Inc64(old(probe.checkCount)), c0 + 1, old(env.signalChecks));
              && (!mallocOk ==>
                    out == Failed(OutOfMemory) && probe.View(env) == v1.(count := old(probe.checkCount)) && log == [])
              && (mallocOk && !IsPowerOfTwo(n) ==>
                    out == Failed(BadSampleCount) && probe.View(env) == v1.(count := old(probe.checkCount)) && log == [])
              && (mallocOk && IsPowerOfTwo(n) ==>
                    var st := Allocation(n, junk, cis);
                    var r := Session(probe.Config(env), v1, st);
                    var w := Steps(probe.Config(env), v1, r.next);
                    var report := Report(Sub64(env.fineClock(w.clockReads), start), w.count);
                    && probe.View(env) == w.(clockReads := w.clockReads + 1)
                    && out == (if r.rv != 0 then Interrupted(report) else Completed(report))
                    && (r.rv == 0 ==> fd[..] == FftOutput(st, td))
                    && probe.trace.calls == old(probe.trace.calls) + r.next
                    && CombinedBefore(probe.Config(env), v1, old(probe.trace.calls), log, 1, r.next)
                    && (r.rv == 0 ==> |log| == (if n >= 2 then Frames(st.factors) else 0)))
  {
    log := [];
    var g := GetBuffers(got1, tdBytes, got2, fdBytes);
    if g.Refused? {
      return Failed(g.why), log;
    }
    var startNs := env.NowNs(false);
    if probe.nsBetweenChecks != 0 {
      probe.nsLastCheck := startNs;
    }
    var alloc := KissFftAlloc(g.samples, mallocOk, junk, cis);
    if alloc.NoMemory? {
      return Failed(OutOfMemory), log;
    }
    if alloc.NotPowerOfTwo? {
      return Failed(BadSampleCount), log;
    }
    var st := alloc.st;
    probe.checkCount := Inc64(probe.checkCount);
    ghost var cfg := probe.Config(env);
    ghost var v1 := probe.View(env);
    ghost var base := probe.trace.calls;
    var rv := probe.Check(env);
    var interrupted := rv != 0;
    if !interrupted {
      assert probe.View(env) == Steps(cfg, v1, 1);
      rv, log := KissFft.KissFft(st, td, fd, probe, env, v1, base, 1);
      assert Session(cfg, v1, st) == FftRun(cfg, v1, st, 1);
      interrupted := rv != 0;
    } else {
      assert Session(cfg, v1, st) == Run(1, rv);
    }
    var stopNs := env.NowNs(false);
    var report := Report(Sub64(stopNs, startNs), probe.checkCount);
    out := if interrupted then Interrupted(report) else Completed(report);
  }
}
