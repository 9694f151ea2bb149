# cpython-ext-ctrl-c, modelled in Dafny

This project models the core of MillionConcepts' cpython-ext-ctrl-c. That
project demonstrates how a long-running C extension can stay
interruptible by control-C. The model covers five parts.

- **`CheckSignalsOftenEnough`**: a process-wide gate. It calls
  `PyErr_CheckSignals` only when at least a millisecond of
  `CLOCK_MONOTONIC_COARSE` time has passed since the last check, or when
  the clock went backwards. It is built on `timespec_difference_at_least`,
  which comes in a multiplicative form and a case-split form that are meant
  to agree (modules `TimespecGate` and `CheckSignals`).
- **The stop-check callbacks of `interruptible.c`** (module `Probe`).
  `simple_interruptible_check` always checks signals. The timed and
  timed-coarse callbacks check only when the unsigned 64-bit nanosecond
  difference since `ns_last_check` reaches `ns_between_checks`. The record
  counts the checks it made.
- **The KISS FFT subset** (module `KissFft`):
  - `kf_factor` fills the stage block, radix 4 first and then at most one
    radix 2.
  - `kiss_fft_alloc` reports malloc failure or a sample count that is not
    a power of two.
  - `kf_bfly2` and `kf_bfly4` update `Fout` in place.
  - `kf_work` decimates recursively and calls the stop callback twice per
    frame, returning its first non-zero answer unchanged.
  - `kiss_fft` is the entry point.
- **The driver `maybe_interruptible`** (module `Interruptible`):
  - buffer validation, then timing and allocation;
  - one callback call before the transform;
  - the `(elapsed, check_count)` report, returned or carried by
    `Interrupted`.
- **`signaler.Timer`** (module `Signaler`): an object that arms a POSIX
  interval timer on its outermost `__enter__` and disarms it on the
  matching `__exit__`, with the validation done by `__init__`.

**Outside world.**
- Clock readings and `PyErr_CheckSignals` results are streams held by an
  `Env` object. Each callback consumes the next element.
- `malloc`, `PyObject_GetBuffer`, `sigaction`, `timer_create` and
  `timer_settime` outcomes are boolean inputs.
- The POSIX timer is ghost state: whether it exists, and the setting last
  given to it.

**Number representations.**
- C `float`/`double` values are exact reals.
- `uint64_t` counters are written out modulo 2^64 (`Machine.Sub64`,
  `Machine.Inc64`).
- `unsigned int` and `unsigned short` are bounded subset types.

**How the transform is specified.**
- What a completed frame leaves in its output slots is the recursive
  function `KissFft.Transform`: the frame's butterfly applied to its
  decimated input or to its sub-frames' outputs. This is the recursion
  `kf_work` performs. The model does not relate it to the sum that defines
  a discrete Fourier transform.
- The callback sequence is the function `KissFft.Frame`, over the
  callback's successive states (`Probe.Steps`, `Probe.Answer`).
- The in-place methods are proved against both, call by call and element
  by element.
- The callback record carries a ghost `Probe.Trace`. Each callback call
  adds one to its call count. Each butterfly (`KissFft.Bfly`) appends the
  count at which it ran to its butterfly log. The `kf_work` methods
  state which counts that log gains, which shows that no butterfly runs
  after the call that stopped the transform.

## Model

| member | source | states |
|---|---|---|
| Machine.Sub64 | ctrlc/interruptible.c:151 | `now - last` on `nanosec` is the true difference when `now >= last`, and `2^64 - (last - now)` when the clock is behind |
| Machine.Inc64 | ctrlc/interruptible.c:130 | `check_count += 1` adds one, wrapping to 0 after `2^64 - 1` |
| TimespecGate.DifferenceAtLeastMul | CheckSignalsOftenEnough.fuzz/src/tdal.c:23-35 | if no 64-bit step overflows, then on normal readings the result is true exactly when `after` is earlier than `before` or at least `min_ns` passed |
| TimespecGate.DifferenceAtLeastCases | CheckSignalsOftenEnough.fuzz/src/tdal.c:44-73 | the same promise for the case-split form, on normal readings, whenever `min_ns` is at most one second |
| TimespecGate.CasesAgreesWithMul | CheckSignalsOftenEnough.fuzz/src/lib.rs:112-136 | the two forms return the same value on every pair of normal readings without overflow, for `min_ns` up to one second |
| TimespecGate.EarlierAlwaysOpens | CheckSignalsOftenEnough.fuzz/src/tdal.c:67-72 | a reading before the reference opens both forms, whatever `min_ns` is |
| TimespecGate.SameSecond | CheckSignalsOftenEnough.fuzz/src/tdal.c:49-56 | in the same second, the nanosecond difference lies strictly within one second, equals the true duration and alone decides the result |
| TimespecGate.ConsecutiveSeconds | CheckSignalsOftenEnough.fuzz/src/tdal.c:57-66 | across consecutive seconds the adjusted difference is the true duration and is positive |
| TimespecGate.OtherSeconds | CheckSignalsOftenEnough.fuzz/src/tdal.c:67-72 | for any other seconds relation the gate opens whatever the nanosecond fields hold, and the true duration is negative or over a second |
| TimespecGate.MonotoneInThreshold | CheckSignalsOftenEnough.fuzz/src/tdal.c:18-73 | lowering `min_ns` never closes an open gate, in either form |
| TimespecGate.ShiftInvariant | CheckSignalsOftenEnough.fuzz/src/lib.rs:86-89 | moving both readings by the same number of seconds changes neither form's result |
| TimespecGate.FuzzRangeNoOverflow | CheckSignalsOftenEnough.fuzz/src/lib.rs:94-108 | on the fuzzed ranges (base and delta seconds within 2^24, normal nanoseconds) both readings are normal and no 64-bit step of the multiplicative form overflows |
| CheckSignals.TimespecDifferenceAtLeast | CheckSignalsOftenEnough.c:73-113 | whichever build `SIMPLE_TIMESPEC_DIFFERENCE` selects, on normal readings and `min_ns` under a second, it is true exactly when the clock went back or `min_ns` passed |
| CheckSignals.BuildsAgree | CheckSignalsOftenEnough.c:59-72 | the two builds answer alike wherever both are defined |
| CheckSignals.SignalCheckGate.constructor | CheckSignalsOftenEnough.c:116 | the static `last_check` starts at `{0, 0}` |
| CheckSignals.SignalCheckGate.CheckSignalsOftenEnough | CheckSignalsOftenEnough.c:115-130 | a closed gate returns 0 and keeps `last_check`; an open one stores `now` and returns the signal result; on normal readings the gate is open exactly when 1 ms passed or the clock went back |
| Probe.Env.NowNs | ctrlc/interruptible.c:24-39 | a clock read returns the next reading of the chosen clock and consumes it |
| Probe.Env.CheckSignals | ctrlc/interruptible.c:134-136 | `PyErr_CheckSignals` returns the next signal result and consumes it |
| Probe.SimpleAlwaysEscalates | ctrlc/interruptible.c:126-138 | the simple callback always counts one check and returns the signal result, changing nothing else |
| Probe.TimedGate | ctrlc/interruptible.c:145-172 | a timed callback always reads the clock once; while `now - last` (mod 2^64) is below the interval it returns 0 and changes nothing else; otherwise it records `now`, counts one check and returns the signal result |
| Probe.ZeroIntervalAlwaysEscalates | ctrlc/interruptible.c:151-152 | with `ns_between_checks == 0` every call counts a check and calls `PyErr_CheckSignals` |
| Probe.BackwardsStepEscalates | ctrlc/interruptible.c:151 | a clock that steps back by at most `2^64 - interval` opens the gate at once, because the difference wraps |
| Probe.StepsNext | ctrlc/interruptible.c:145-172 | the call after `n` calls returns the `n`-th answer and leaves the state after `n + 1` calls |
| Probe.EveryCallEscalates | ctrlc/interruptible.c:126-138 | with the simple callback or a zero interval, `n` calls make `n` signal checks and add `n` (mod 2^64) to the count |
| Probe.EscalationBound | ctrlc/interruptible.c:140-156 | with a positive interval and a clock that never goes back, signal checks times the interval never exceed the time between the first and the last recorded check, and `ns_last_check` only moves forward |
| Probe.PeriodicSignalCheck.constructor | ctrlc/interruptible.c:298-302 | a record starts with `check_count` and `ns_last_check` at 0 and the chosen callback and interval; its ghost trace starts with no calls and no butterflies |
| Probe.PeriodicSignalCheck.SimpleCheck | ctrlc/interruptible.c:126-138 | increments `check_count` (wrapping) and returns the next signal result |
| Probe.PeriodicSignalCheck.TimedCheck | ctrlc/interruptible.c:145-172 | reads the fine or coarse clock; on a shut gate returns 0 with the record unchanged; otherwise stores `now`, counts and returns the signal result |
| Probe.PeriodicSignalCheck.Check | ctrlc/kissfft_subset.c:174 | calling `should_stop->check` moves the record and environment exactly one step of the callback's transition function. It adds one to the trace's call count and leaves the trace's butterfly log as it was. |
| KissFft.ResidueIsOneIffPowerOfTwo | ctrlc/kissfft_subset.c:230-232 | the value left after both loops of `kf_factor` is 1 exactly when the input is a power of two |
| KissFft.PlanFits | ctrlc/kissfft_subset.c:34-36 | every 32-bit input needs at most `MAXFACTORS` (16) stages |
| KissFft.PlanRadixes | ctrlc/kissfft_subset.c:208-228 | every stage has radix 4 except possibly the last, which may have radix 2 |
| KissFft.PlanStrides | ctrlc/kissfft_subset.c:201-204 | `p[i] * m[i] == m[i-1]` with `m0 = n` |
| KissFft.PlanEnds | ctrlc/kissfft_subset.c:201-233 | the last stage has stride 1, and there is no stage exactly when `n == 1` |
| KissFft.PlanIsChain | ctrlc/kissfft_subset.c:140-151 | the stages of any `n >= 2` form a chain that `kf_work` can consume and whose size is `n` |
| KissFft.OneSampleHasNoStage | ctrlc/kissfft_subset.c:205-233 | 1 is a power of two yet `kf_factor` writes no stage for it, so the stage list `kf_work` would read is not a chain |
| KissFft.FactorFours | ctrlc/kissfft_subset.c:209-218 | the radix-4 loop either overruns (only for 0) or stops with no factor 4 left and the stages written so far prefixing the plan; the other slots are untouched |
| KissFft.KfFactor | ctrlc/kissfft_subset.c:205-233 | returns true exactly for powers of two; the first slots hold the plan and the rest of the block is unchanged |
| KissFft.CopyDecimated | ctrlc/kissfft_subset.c:154-158 | the base case writes `f[fbeg + j * fstride]` to slot `j` of the frame and nothing outside it |
| KissFft.Bfly2 | ctrlc/kissfft_subset.c:82-100 | the frame of `2m` values becomes the radix-2 butterfly of its old contents with twiddles `k * fstride`; nothing outside changes |
| KissFft.Bfly4Point | ctrlc/kissfft_subset.c:116-134 | one pass of the `kf_bfly4` loop updates the four values at offsets `0, m, 2m, 3m` from the pass position |
| KissFft.Bfly4 | ctrlc/kissfft_subset.c:102-138 | the frame of `4m` values becomes the radix-4 butterfly of its old contents with twiddles `k`, `2k` and `3k` strides in; nothing outside changes |
| KissFft.Bfly | ctrlc/kissfft_subset.c:179-189 | the switch applies the radix-2 or radix-4 butterfly; no other radix reaches it, so `abort()` is unreachable. The butterfly appends the trace's current call count to the trace's butterfly log and does not change the count. |
| KissFft.KfChild | ctrlc/kissfft_subset.c:160-170 | one sub-transform either stops the frame with the callback's first non-zero answer or appends the `q`-th decimated transform, without writing outside its slot |
| KissFft.KfChildren | ctrlc/kissfft_subset.c:159-172 | the `p` sub-transforms stop at the first non-zero answer or fill the frame with the decimated transforms; the callback state is the one after exactly the calls they made |
| KissFft.KfGather | ctrlc/kissfft_subset.c:154-172 | both branches before the first check leave the frame holding the gathered sub-results, or pass on a non-zero answer |
| KissFft.KfWork | ctrlc/kissfft_subset.c:140-192 | returns the first non-zero answer of the frame's call sequence, and the callback makes exactly the frame's calls. After its sub-frames returned 0, a non-zero first check returns with the frame's slots still holding the gathered values, and a zero one leaves them holding the frame's `Transform`. The trace's call count advances by exactly the frame's calls. `log` is exactly what the butterflies of the frame and its sub-frames appended to the trace, and `Bfly` is the only writer. The frame's own butterfly is in it exactly when its sub-frames and its first check answered 0. Every butterfly in it follows a call that answered 0, in call order, before the frame's last call: no combination runs after a stop. A completed frame ran one butterfly per frame it entered, and nothing outside the frame's slots changes. |
| KissFft.KfCombine | ctrlc/kissfft_subset.c:174-191 | with the gathered values in place, the first check's non-zero answer returns before the butterfly and leaves the slots unchanged. A 0 answer runs the butterfly, which appends itself to the trace right after that call, and returns the second check's answer. |
| KissFft.SubsNext | ctrlc/kissfft_subset.c:160-171 | each sub-transform reads a decimation that stays inside the input and appends its transform |
| KissFft.FrameStops | ctrlc/kissfft_subset.c:166-191 | a frame makes at least one call, every call but its last answered 0, and it returns the last answer |
| KissFft.ChildrenStop | ctrlc/kissfft_subset.c:160-171 | the sub-transform loop returns 0 only after all-zero answers, else it returns its last answer |
| KissFft.FrameChecks | ctrlc/kissfft_subset.c:174-191 | a frame makes at most two calls per frame of its recursion |
| KissFft.QuietFrame | ctrlc/kissfft_subset.c:174-191 | when no signal is ever pending, a frame completes after exactly two calls per frame of its recursion |
| KissFft.QuietChildren | ctrlc/kissfft_subset.c:159-172 | the same count for the remaining sub-transforms of a frame |
| KissFft.FftRunStops | ctrlc/kissfft_subset.c:194-199 | `kiss_fft` stops at the first non-zero answer; when no signal is pending it completes after two calls per frame; the two calls for one sample are those of the corrected single-sample case (see Findings) |
| KissFft.KissFft | ctrlc/kissfft_subset.c:194-199 | returns the first non-zero answer, or 0 with `fout` holding what the recursion computes over `fin` (`FftOutput`); the callback makes exactly the run's calls. Every butterfly appended to the trace follows a call that answered 0 and precedes the run's last call. A completed run ran one butterfly per frame, and none for one sample. |
| KissFft.Allocation | ctrlc/kissfft_subset.c:242-263 | the state allocated for a power of two is valid: a 16-slot block whose stage prefix is a chain of size `n`, and `n - 1` twiddles |
| KissFft.AllocatedValid | ctrlc/kissfft_subset.c:251-255 | whatever the unwritten slots of the block hold, the plan prefix makes the state valid |
| KissFft.AllocationIs | ctrlc/kissfft_subset.c:251-262 | the block `kf_factor` leaves, with the twiddle loop's values, is the allocated state |
| KissFft.KissFftAlloc | ctrlc/kissfft_subset.c:242-264 | malloc failure gives 0; otherwise a state is returned exactly for powers of two (else -1), and it is the plan and the twiddles `cis(i, n)` |
| Interruptible.GetBuffers | ctrlc/interruptible.c:177-216 | succeeds exactly when both buffers were obtained, their lengths match and they hold 1 to 2^31 whole samples; the count is the byte length over 8, rounded down; refusals follow the source's order |
| Interruptible.SessionStops | ctrlc/interruptible.c:252-262 | the driver's own call and the transform's calls stop at the first non-zero answer; when no signal is pending the session completes after one call plus two per frame |
| Interruptible.SimpleSessionChecks | ctrlc/interruptible.c:252-269 | with the simple callback and no pending signal, the reported count is the start count plus the driver's increment plus one per call |
| Interruptible.TimedSessionPaced | ctrlc/interruptible.c:234-236 | because `ns_last_check` starts at the fine-clock start time, the timed callback's signal checks times the interval never exceed the time since the start |
| Interruptible.CoarseLagEscalates | ctrlc/interruptible.c:234-236 | the coarse callback compares coarse readings with a fine-clock start time; if the coarse clock lags, the first call checks signals at once |
| Interruptible.MaybeInterruptible | ctrlc/interruptible.c:219-276 | validation errors change nothing. After that the start time is read, and `ns_last_check` is set when the interval is non-zero. Allocation errors leave the count unchanged. Otherwise the count gains one, the session runs, and the report (stop - start, count) is returned as `Completed` or `Interrupted` according to the session's answer. On completion `fd` holds `FftOutput` of `td`. Only the transform appends butterflies to the trace: none on a refusal, and none after the session's stopping call. |
| Signaler.InitCheck | ctrlc/signaler.c:97-116 | init validation passes exactly when `sigaction` accepts the signal and the interval is finite and at least 1 ns; "positive and finite" is reported exactly when `sigaction` passes and the interval is not finite or not positive |
| Signaler.SplitRoundTrip | ctrlc/signaler.c:111-122 | an accepted interval splits into a valid positive `timespec` whose value in seconds lies within 1 ns below the requested interval and never above it |
| Signaler.ToUShort | ctrlc/signaler.c:123 | the conversion to `unsigned short` keeps every value in range |
| Signaler.StepsKeepConsistent | ctrlc/signaler.c:146-190 | with a positive interval and successful OS calls, enter and exit keep the timer armed exactly while entered; enter is refused only at `UINT_MAX`; only the outermost enter and exit touch the timer |
| Signaler.ReplayDepth | ctrlc/signaler.c:146-190 | for a sequence of successful enters and exits, starting from a consistent state, it assumes the start depth plus the call count stays within `UINT_MAX`, and that no prefix's net count of exits exceeds the start depth. The depth then moves by the net count of enters, and the timer stays armed exactly while entered. |
| Signaler.BalancedDisarms | ctrlc/signaler.c:241-256 | a balanced `with` nesting started outside any context ends outside it with the timer disarmed |
| Signaler.Timer.constructor | ctrlc/signaler.c:48-67 | a new object has every field zero, `ready` false and no OS timer |
| Signaler.Timer.Init | ctrlc/signaler.c:69-137 | A second `__init__` fails and changes nothing; a validation failure does the same. Otherwise it stores the split interval, the signal as `unsigned short`, `repeat` and `ready` before `timer_create`, so a failed create still leaves the object ready. A successful create gives a disarmed timer. It returns success with the range error still set when only the `USHRT_MAX` check failed. |
| Signaler.Timer.Dealloc | ctrlc/signaler.c:139-144 | afterwards no OS timer remains and none is armed |
| Signaler.Timer.Enter | ctrlc/signaler.c:146-175 | refuses at `UINT_MAX`; arms the timer (period 0 unless repeating) only when the depth was 0, failing without counting if `timer_settime` fails; otherwise counts one level |
| Signaler.Timer.Exit | ctrlc/signaler.c:177-190 | disarms only at depth 1, decrements only above 0, and is a no-op at 0 |

## Left out

- Floating point:
  - FFT values are exact reals.
  - `cosf`/`sinf` of the twiddle phase become the parameter `cis`.
  - `nsec_to_sec` and `sec_to_nsec`/`llrint` (ctrlc/interruptible.c:54-66) are not modelled, so the report's elapsed time stays in nanoseconds. The timed interval is a given `u64`.
  - The `Timer` interval is a real, so the `floor` rounding of `double` and the `double` getter (ctrlc/signaler.c:199-207) are exact here.
- `fft_uninterruptible` (ctrlc/interruptible.c:279-288) passes a NULL callback, which `kf_work` dereferences unconditionally. The model always has a callback and does not assert the header's NULL promise (ctrlc/kissfft_subset.h:26-31).
- Python C-API plumbing is not modelled:
  - argument parsing and defaults;
  - buffer release;
  - exception objects, `raise_Interrupted` and the `Interrupted` type (the outcome `Interrupted` carries the report instead);
  - module and type set-up, the `signal` and `repeat` getters.
  - Only whether `PyObject_GetBuffer` succeeded and the byte lengths enter the model.
- The GIL (`PyGILState_*`, `Py_BEGIN/END_ALLOW_THREADS`), threads and signal delivery are not modelled. Signal results are a stream given in advance.
- OS calls are not modelled:
  - `clock_gettime` readings are streams;
  - `sigaction`, `timer_create`, `timer_settime` and `malloc` outcomes are inputs;
  - `free` and `timer_delete` have no effect beyond ghost state;
  - the expiry of a one-shot timer is not tracked.
- KissFft.KissFft: for one sample it follows the corrected behaviour of the finding on ctrlc/kissfft_subset.c:251: it copies the sample and calls the callback as for one frame. The source reads an unwritten stage there.
- KissFft.FftRunStops: its count of two calls for one sample is that of the corrected single-sample case of the finding on ctrlc/kissfft_subset.c:251, not of the source.
- Interruptible.SessionStops: for one sample the session's calls are those of the corrected single-sample case of the finding on ctrlc/kissfft_subset.c:251.
- Interruptible.SimpleSessionChecks: for one sample the reported count follows the corrected single-sample case of the finding on ctrlc/kissfft_subset.c:251.
- Interruptible.MaybeInterruptible: for one sample its calls, report and output follow the corrected single-sample case of the finding on ctrlc/kissfft_subset.c:251, where the source reads an unwritten stage.
- Signaler.Timer.Dealloc: when `__init__` never created a timer, `Timer_dealloc` still passes the unset `timer` field to `timer_delete`; the model only records that no timer remains afterwards. The object's memory is never released (there is no `tp_free` call), which is not modelled either.
- Interruptible.MaybeInterruptible: the input and output buffers are separate (the input is a value). This follows the `restrict` qualifiers of `kiss_fft`; aliasing of `td` and `fd` is not modelled.
- Interruptible.MaybeInterruptible: says nothing about the output buffer after an interruption, which the source leaves partly written. Per frame, `KissFft.KfWork` does say which values a frame stopped by its first check holds.
- Signaler.Timer.Init: the `(time_t)` conversion of very large intervals is not modelled; seconds are unbounded integers.
- The benchmark harness, example scripts, build script, Rust FFI wrappers and Python tests are not part of this model.

## Findings

| source | as written | input that shows it | evidently intended | confidence | as-written member | corrected member |
|---|---|---|---|---|---|---|
| ctrlc/kissfft_subset.c:251 | `kiss_fft_alloc(1)` succeeds, but `kf_factor(1)` writes no stage. `kiss_fft` then reads `factors[0]`, which was never written. | an 8-byte input and an 8-byte output buffer (one sample) passed to any of the `fft_*` functions | a one-sample transform copies its sample, which is its DFT | not executed | KissFft.OneSampleHasNoStage | KissFft.KissFft |
