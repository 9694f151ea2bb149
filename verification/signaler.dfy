/**
 * The `signaler.Timer` object of signaler.c: a context manager that arms a
 * POSIX interval timer on the outermost `__enter__` and disarms it on the
 * matching `__exit__`. The OS timer is ghost state: whether `timer_create`
 * has given the object a timer, and the setting last passed to
 * `timer_settime`. The outcomes of `sigaction`, `timer_create` and
 * `timer_settime` are inputs. The `double` interval is modelled as a real
 * together with a flag for `isfinite`.
 */
module Signaler {
  import opened Machine

  /** `NS_PER_S`: nanoseconds in a second. */
  const NS_PER_S: nat := 1_000_000_000

  /** `SIGINT`, the default signal. */
  const SIGINT: int := 2

  /** A `struct timespec`. */
  datatype Timespec = Timespec(sec: int, nsec: int)

  const ZERO: Timespec := Timespec(0, 0)

  /** A `struct itimerspec`: the first expiry and the period (zero for a one-shot timer). */
  datatype TimerSetting = TimerSetting(value: Timespec, period: Timespec)

  /** The setting `Timer_exit` passes to disarm the timer. */
  const DISARMED: TimerSetting := TimerSetting(ZERO, ZERO)

  /** A timer is armed when its first expiry is not zero. */
  predicate Armed(s: TimerSetting) {
    s.value != ZERO
  }

  /** A valid, positive `timespec`. */
  predicate PositiveSpan(t: Timespec) {
    t.sec >= 0 && 0 <= t.nsec < NS_PER_S && t != ZERO
  }

  /** The value of a `timespec` in seconds. */
  function Seconds(t: Timespec): real {
    t.sec as real + t.nsec as real / NS_PER_S as real
  }

  // ---------------------------------------------------------------------
  // Timer_init: argument validation and the interval split
  // ---------------------------------------------------------------------

  /** The exception `Timer_init` leaves set. */
  datatype InitError =
    | CalledTwice       // RuntimeError "Timer.__init__ called twice"
    | BadSignal         // ValueError "%d is not a valid signal number"
    | BadInterval       // ValueError "interval must be positive and finite"
    | IntervalTooShort  // ValueError "minimum interval is 1 ns (1e-9 s)"
    | CreateFailed      // OSError from `timer_create`

  datatype Option<T> = None | Some(value: T)

  /** 1e-9 seconds, the smallest interval a `timespec` can hold. */
  const ONE_NS: real := 1.0 / 1_000_000_000.0

  /**
   * The checks `Timer_init` makes after parsing, in its order, when
   * `sigaction` succeeds exactly when `sigactionOk`; `None` when they all
   * pass. The `USHRT_MAX` range check sets an exception but does not
   * return, so it is not among them.
   */
  function InitCheck(sigactionOk: bool, finite: bool, interval: real): (r: Option<InitError>)
    ensures r == None <==> sigactionOk && finite && interval >= ONE_NS
    ensures r == Some(BadInterval) <==> sigactionOk && (!finite || interval <= 0.0)
  {
    if !sigactionOk then Some(BadSignal)
    else if !finite || interval <= 0.0 then Some(BadInterval)
    else if interval < ONE_NS then Some(IntervalTooShort)
    else None
  }

  /** The `floor`-based split of an interval in seconds into whole seconds and nanoseconds. */
  function Split(interval: real): Timespec {
    var sec := interval.Floor;
    Timespec(sec, ((interval - sec as real) * NS_PER_S as real).Floor)
  }

  /**
   * Every interval `Timer_init` accepts splits into a valid, positive
   * `timespec` that the `interval` getter turns back into a value at most
   * 1 ns below the requested one and never above it.
   */
  lemma SplitRoundTrip(interval: real)
    requires interval >= ONE_NS
    ensures PositiveSpan(Split(interval))
    ensures interval - ONE_NS < Seconds(Split(interval)) <= interval
  {
    var sec := interval.Floor;
    var frac := interval - sec as real;
    var ns := (frac * NS_PER_S as real).Floor;
    assert 0.0 <= frac < 1.0;
    assert ns as real <= frac * NS_PER_S as real < ns as real + 1.0;
    assert Seconds(Split(interval)) == sec as real + ns as real / NS_PER_S as real;
    if sec == 0 {
      assert frac == interval;
      assert frac * NS_PER_S as real >= 1.0;
    }
  }

  /** `(unsigned short) signal`: conversion to 16 bits, modulo 2^16. */
  function ToUShort(x: int): (r: u16)
    ensures 0 <= x <= USHRT_MAX ==> r == x
  {
    x % (USHRT_MAX + 1)
  }

  // ---------------------------------------------------------------------
  // Timer_enter / Timer_exit as steps on the nesting state
  // ---------------------------------------------------------------------

  /** The part of a timer that `__enter__` and `__exit__` change: the depth and the OS timer's setting. */
  datatype Nesting = Nesting(entryCount: u32, setting: TimerSetting)

  /** The setting the outermost `__enter__` passes to `timer_settime`. */
  function ArmSetting(interval: Timespec, repeat: bool): TimerSetting {
    TimerSetting(interval, if repeat then interval else ZERO)
  }

  datatype EnterResult = Entered | TooDeep | SetTimeFailed

  /** `Timer_enter`, where `timer_settime` succeeds exactly when `setOk`. */
  function EnterStep(s: Nesting, interval: Timespec, repeat: bool, setOk: bool): (EnterResult, Nesting) {
    if s.entryCount == UINT_MAX then (TooDeep, s)
    else if s.entryCount == 0 && !setOk then (SetTimeFailed, s)
    else (Entered, Nesting(s.entryCount + 1, if s.entryCount == 0 then ArmSetting(interval, repeat) else s.setting))
  }

  /** `Timer_exit`, where the disarming `timer_settime` takes effect exactly when `setOk`. */
  function ExitStep(s: Nesting, setOk: bool): Nesting {
    Nesting(if s.entryCount > 0 then s.entryCount - 1 else 0,
            if s.entryCount == 1 && setOk then DISARMED else s.setting)
  }

  /** The timer is armed exactly while the object is entered. */
  predicate Consistent(s: Nesting) {
    Armed(s.setting) <==> s.entryCount > 0
  }

  /**
   * Each step keeps the timer armed exactly while entered, as long as the
   * interval is positive and the OS calls succeed; a refused enter changes
   * nothing, and only the outermost enter and exit touch the OS timer.
   */
  lemma StepsKeepConsistent(s: Nesting, interval: Timespec, repeat: bool)
    requires Consistent(s) && PositiveSpan(interval)
    ensures Consistent(EnterStep(s, interval, repeat, true).1)
    ensures Consistent(ExitStep(s, true))
    ensures EnterStep(s, interval, repeat, true).0 == Entered <==> s.entryCount < UINT_MAX
    ensures s.entryCount > 0 ==> EnterStep(s, interval, repeat, true).1.setting == s.setting
    ensures s.entryCount != 1 ==> ExitStep(s, true).setting == s.setting
  {
  }

  /** A call of `__enter__` or `__exit__` and whether its `timer_settime` succeeds. */
  datatype Call = Enter(setOk: bool) | Exit(setOk: bool)

  /** The nesting state after a sequence of calls. */
  function Replay(s: Nesting, interval: Timespec, repeat: bool, calls: seq<Call>): Nesting
    decreases |calls|
  {
    if calls == [] then s
    else
      var t := match calls[0]
        case Enter(ok) => EnterStep(s, interval, repeat, ok).1
        case Exit(ok) => ExitStep(s, ok);
      Replay(t, interval, repeat, calls[1..])
  }

  /** Enters minus exits. */
  function Net(calls: seq<Call>): int
    decreases |calls|
  {
    if calls == [] then 0 else (if calls[0].Enter? then 1 else -1) + Net(calls[1..])
  }

  /** No prefix exits more often than it enters. */
  ghost predicate Nested(calls: seq<Call>) {
    forall k :: 0 <= k <= |calls| ==> Net(calls[..k]) >= 0
  }

  /** Every OS call succeeds. */
  ghost predicate NoOsFailure(calls: seq<Call>) {
    forall k :: 0 <= k < |calls| ==> calls[k].setOk
  }

  lemma NetSplit(calls: seq<Call>, k: nat)
    requires 0 < k <= |calls|
    ensures Net(calls[..k]) == (if calls[0].Enter? then 1 else -1) + Net(calls[1..][..k - 1])
  {
    assert calls[..k][1..] == calls[1..][..k - 1];
  }

  /**
   * Replaying calls whose every prefix keeps the depth at least `-depth`
   * (no exit below the starting depth is lost) moves the depth by the net
   * number of enters, and keeps the timer armed exactly while entered.
   */
  lemma {:induction false} ReplayDepth(s: Nesting, interval: Timespec, repeat: bool, calls: seq<Call>)
    requires Consistent(s) && PositiveSpan(interval) && NoOsFailure(calls)
    requires s.entryCount + |calls| <= UINT_MAX
    requires forall k :: 0 <= k <= |calls| ==> s.entryCount + Net(calls[..k]) >= 0
    ensures var t := Replay(s, interval, repeat, calls);
            && t.entryCount == s.entryCount + Net(calls)
            && Consistent(t)
    decreases |calls|
  {
    if calls != [] {
      StepsKeepConsistent(s, interval, repeat);
      var t := match calls[0]
        case Enter(ok) => EnterStep(s, interval, repeat, ok).1
        case Exit(ok) => ExitStep(s, ok);
      NetSplit(calls, 1);
      assert calls[0].setOk;
      assert t.entryCount == s.entryCount + (if calls[0].Enter? then 1 else -1);
      forall k | 0 <= k <= |calls[1..]|
        ensures t.entryCount + Net(calls[1..][..k]) >= 0
      {
        NetSplit(calls, k + 1);
      }
      forall k | 0 <= k < |calls[1..]|
        ensures calls[1..][k].setOk
      {
        assert calls[1..][k] == calls[k + 1];
      }
      ReplayDepth(t, interval, repeat, calls[1..]);
      assert calls[1..][..|calls[1..]|] == calls[1..];
    }
  }

  /**
   * A balanced `with` nesting, started outside any context, ends outside
   * it with the timer disarmed.
   */
  lemma BalancedDisarms(s: Nesting, interval: Timespec, repeat: bool, calls: seq<Call>)
    requires s.entryCount == 0 && !Armed(s.setting) && PositiveSpan(interval)
    requires NoOsFailure(calls) && Nested(calls) && Net(calls) == 0 && |calls| <= UINT_MAX
    ensures Replay(s, interval, repeat, calls).entryCount == 0
    ensures !Armed(Replay(s, interval, repeat, calls).setting)
  {
    ReplayDepth(s, interval, repeat, calls);
  }

  // ---------------------------------------------------------------------
  // The object
  // ---------------------------------------------------------------------

  /** A `TimerObject`. */
  class Timer {
    var interval: Timespec
    var entryCount: u32
    var signal: u16
    var repeat: bool
    var ready: bool
    /** Whether `timer_create` has given this object an OS timer. */
    ghost var created: bool
    /** The setting last passed to that timer (the expiry of a one-shot timer is not tracked). */
    ghost var setting: TimerSetting

    ghost function Nest(): Nesting
      reads this
    {
      Nesting(entryCount, setting)
    }

    /** `Timer_new`: every field zero, no OS timer yet. */
    constructor ()
      ensures interval == ZERO && entryCount == 0 && signal == 0 && !repeat && !ready
      ensures !created && setting == DISARMED
    {
      interval := ZERO;
      entryCount := 0;
      signal := 0;
      repeat := false;
      ready := false;
      created := false;
      setting := DISARMED;
    }

    /**
     * `Timer_init(interval, signal, repeat)`: `rv` is the C return value and
     * `raised` the exception left set. A fresh OS timer starts disarmed.
     */
    method Init(intervalArg: real, finite: bool, signalArg: int, repeatArg: bool, sigactionOk: bool, createOk: bool)
      returns (rv: int, raised: Option<InitError>)
      modifies this
      ensures old(ready) ==> rv == -1 && raised == Some(CalledTwice) && unchanged(this)
      ensures !old(ready) && InitCheck(sigactionOk, finite, intervalArg).Some? ==>
                rv == -1 && raised == InitCheck(sigactionOk, finite, intervalArg) && unchanged(this)
      ensures !old(ready) && InitCheck(sigactionOk, finite, intervalArg) == None ==>
                && interval == Split(intervalArg) && signal == ToUShort(signalArg) && repeat == repeatArg
                && ready && entryCount == old(entryCount)
                && (createOk ==>
                      && rv == 0 && created && setting == DISARMED
                      && raised == (if 0 <= signalArg <= USHRT_MAX then None else Some(BadSignal)))
                && (!createOk ==>
                      rv == -1 && raised == Some(CreateFailed) && created == old(created) && setting == old(setting))
    {
      if ready {
        return -1, Some(CalledTwice);
      }
      raised := None;
      if signalArg < 0 || signalArg > USHRT_MAX {
        raised := Some(BadSignal);
      }
      if !sigactionOk {
        return -1, Some(BadSignal);
      }
      if !finite || intervalArg <= 0.0 {
        return -1, Some(BadInterval);
      }
      if intervalArg < ONE_NS {
        return -1, Some(IntervalTooShort);
      }
      interval := Split(intervalArg);
      signal := ToUShort(signalArg);
      repeat := repeatArg;
      ready := true;
      if !createOk {
        return -1, Some(CreateFailed);
      }
      created := true;
      setting := DISARMED;
      rv := 0;
    }

    /**
     * `Timer_dealloc`: the OS timer is deleted, and afterwards none is
     * left. The source calls `timer_delete` even when no timer was created.
     */
    method Dealloc()
      modifies this`created, this`setting
      ensures !created && setting == DISARMED
    {
      created := false;
      setting := DISARMED;
    }

    /** `Timer_enter`, where `timer_settime` succeeds exactly when `setOk`. */
    method Enter(setOk: bool) returns (res: EnterResult)
      modifies this`entryCount, this`setting
      ensures (res, Nest()) == EnterStep(old(Nest()), interval, repeat, setOk)
    {
      if entryCount == UINT_MAX {
        return TooDeep;
      }
      if entryCount == 0 {
        if !setOk {
          return SetTimeFailed;
        }
        setting := ArmSetting(interval, repeat);
      }
      entryCount := entryCount + 1;
      res := Entered;
    }

    /** `Timer_exit`; the result of the disarming `timer_settime` is ignored, its effect is `setOk`. */
    method Exit(setOk: bool)
      modifies this`entryCount, this`setting
      ensures Nest() == ExitStep(old(Nest()), setOk)
    {
      if entryCount == 1 && setOk {
        setting := DISARMED;
      }
      if entryCount > 0 {
        entryCount := entryCount - 1;
      }
    }
  }
}
