/**
 * The trimmed KISS FFT: forward transform of a power-of-two number of
 * complex samples, decimation in time with radix-4 stages and at most one
 * radix-2 stage, calling a stop-check callback twice per recursion frame
 * and abandoning the work on the first non-zero answer.
 */
module KissFft {
  import opened Machine
  import opened Probe

  /** Room for stage descriptors in the state: 2^31 samples need 16. */
  const MAXFACTORS: nat := 16

  /** `KISS_FFT_MAX_SAMPLES`, 2^31. */
  const KISS_FFT_MAX_SAMPLES: int := 0x8000_0000

  /** `kiss_fft_cpx`; the model computes over the reals where the source uses `float`. */
  datatype Cpx = Cpx(r: real, i: real)

  function CMul(a: Cpx, b: Cpx): Cpx { Cpx(a.r * b.r - a.i * b.i, a.r * b.i + a.i * b.r) }
  function CAdd(a: Cpx, b: Cpx): Cpx { Cpx(a.r + b.r, a.i + b.i) }
  function CSub(a: Cpx, b: Cpx): Cpx { Cpx(a.r - b.r, a.i - b.i) }

  /** `struct kiss_fft_factor`: a stage's radix p and the length m of each of its sub-transforms. */
  datatype Factor = Factor(radix: int, stride: int)

  // ---------------------------------------------------------------------
  // kf_factor

  predicate IsPowerOfTwo(n: nat) {
    n == 1 || (n >= 2 && n % 2 == 0 && IsPowerOfTwo(n / 2))
  }

  /** The stages `kf_factor` writes for `n`: radix 4 while possible, then radix 2. */
  function Plan(n: nat): seq<Factor> {
    if n > 0 && n % 4 == 0 then [Factor(4, n / 4)] + Plan(n / 4)
    else if n > 0 && n % 2 == 0 then [Factor(2, n / 2)] + Plan(n / 2)
    else []
  }

  /** The value `n` holds when both loops of `kf_factor` have stopped. */
  function Residue(n: nat): nat {
    if n > 0 && n % 4 == 0 then Residue(n / 4)
    else if n > 0 && n % 2 == 0 then Residue(n / 2)
    else n
  }

  function Pow4(k: nat): nat {
    if k == 0 then 1 else 4 * Pow4(k - 1)
  }

  // The arithmetic of the two loops, kept apart from the recursive
  // definitions so that each proof unfolds only what it needs.

  /** A positive multiple of 4 is even, its half is even, and halving twice divides by 4. */
  lemma DivFour(n: nat)
    requires n > 0 && n % 4 == 0
    ensures n == 4 * (n / 4) && n % 2 == 0 && (n / 2) % 2 == 0 && n / 2 / 2 == n / 4
    ensures 0 < n / 4 < n && n / 2 >= 2
  {
    assert n == 2 * (2 * (n / 4));
  }

  /** An odd number is not a multiple of 4. */
  lemma OddNotFour(n: nat)
    requires n % 2 != 0
    ensures n % 4 != 0
  {
    assert n == 2 * (n / 2) + 1;
  }

  /** Halving a multiple of 2 that is not a multiple of 4 leaves an odd number. */
  lemma HalfIsOdd(n: nat)
    requires n % 2 == 0 && n % 4 != 0
    ensures (n / 2) % 2 == 1 && (n / 2) % 4 != 0
  {
    assert n == 2 * (n / 2);
    OddNotFour(n / 2);
  }

  /** A multiple of 4 contributes a radix-4 stage. */
  lemma PlanFour(n: nat)
    requires n > 0 && n % 4 == 0
    ensures Plan(n) == [Factor(4, n / 4)] + Plan(n / 4) && Residue(n) == Residue(n / 4)
  {
  }

  /** A multiple of 2 that is not a multiple of 4 contributes one last radix-2 stage. */
  lemma PlanTwo(n: nat)
    requires n > 0 && n % 2 == 0 && n % 4 != 0 && (n / 2) % 2 == 1 && (n / 2) % 4 != 0
    ensures Plan(n) == [Factor(2, n / 2)] && Residue(n) == n / 2
  {
    PlanOdd(n / 2);
  }

  /** Neither loop of `kf_factor` runs on an odd number. */
  lemma PlanOdd(n: nat)
    requires n % 2 != 0 && n % 4 != 0
    ensures Plan(n) == [] && Residue(n) == n
  {
  }

  /** What a stage of each radix says about being a power of two. */
  lemma PowerFour(n: nat)
    requires n > 0 && n % 2 == 0 && (n / 2) % 2 == 0 && n / 2 / 2 == n / 4 && n / 2 >= 2
    ensures IsPowerOfTwo(n) <==> IsPowerOfTwo(n / 4)
  {
  }

  lemma PowerTwo(n: nat)
    requires n > 0 && n % 2 == 0 && (n / 2) % 2 == 1
    ensures IsPowerOfTwo(n) <==> n == 2
  {
  }

  lemma PowerOdd(n: nat)
    requires n % 2 != 0
    ensures IsPowerOfTwo(n) <==> n == 1
  {
  }

  /** `kf_factor` succeeds exactly on powers of two. */
  lemma {:induction false} ResidueIsOneIffPowerOfTwo(n: nat)
    requires n > 0
    ensures Residue(n) == 1 <==> IsPowerOfTwo(n)
  {
    if n % 4 == 0 {
      DivFour(n);
      PlanFour(n);
      PowerFour(n);
      ResidueIsOneIffPowerOfTwo(n / 4);
    } else if n % 2 == 0 {
      HalfIsOdd(n);
      PlanTwo(n);
      PowerTwo(n);
    } else {
      OddNotFour(n);
      PlanOdd(n);
      PowerOdd(n);
    }
  }

  /** A number below 4^k has at most k stages, so 16 slots hold every 32-bit size. */
  lemma {:induction false} PlanLength(n: nat, k: nat)
    requires n < Pow4(k)
    ensures |Plan(n)| <= k
  {
    if n > 0 && n % 4 == 0 {
      DivFour(n);
      PlanFour(n);
      PlanLength(n / 4, k - 1);
    } else if n > 0 && n % 2 == 0 {
      HalfIsOdd(n);
      PlanTwo(n);
    } else if n % 2 != 0 {
      OddNotFour(n);
      PlanOdd(n);
    }
  }

  lemma Pow4Sixteen()
    ensures Pow4(16) == U32
  {
    assert Pow4(4) == 256;
    assert Pow4(8) == 65536 by {
      assert Pow4(8) == 4 * 4 * 4 * 4 * Pow4(4);
    }
    assert Pow4(16) == 65536 * 65536 by {
      assert Pow4(12) == 4 * 4 * 4 * 4 * Pow4(8);
      assert Pow4(16) == 4 * 4 * 4 * 4 * Pow4(12);
    }
  }

  /** Every 32-bit size has at most `MAXFACTORS` stages. */
  lemma PlanFits(n: u32)
    ensures |Plan(n)| <= MAXFACTORS
  {
    Pow4Sixteen();
    PlanLength(n, 16);
  }

  /** A plan is radix-4 stages followed by at most one radix-2 stage. */
  lemma {:induction false} PlanRadixes(n: nat)
    ensures forall j :: 0 <= j < |Plan(n)| ==> Plan(n)[j].radix == 4 || (Plan(n)[j].radix == 2 && j == |Plan(n)| - 1)
  {
    if n > 0 && n % 4 == 0 {
      DivFour(n);
      PlanFour(n);
      PlanRadixes(n / 4);
    } else if n > 0 && n % 2 == 0 {
      HalfIsOdd(n);
      PlanTwo(n);
    } else if n % 2 != 0 {
      OddNotFour(n);
      PlanOdd(n);
    }
  }

  /** Each stage's radix times its stride is the previous stage's stride, and the first stage's is `n`. */
  lemma {:induction false} PlanStrides(n: nat)
    ensures forall j :: 0 < j < |Plan(n)| ==> Plan(n)[j].radix * Plan(n)[j].stride == Plan(n)[j - 1].stride
    ensures |Plan(n)| > 0 ==> Plan(n)[0].radix * Plan(n)[0].stride == n
  {
    if n > 0 && n % 4 == 0 {
      DivFour(n);
      PlanFour(n);
      PlanStrides(n / 4);
      var ps, rest := Plan(n), Plan(n / 4);
      forall j | 0 < j < |ps|
        ensures ps[j].radix * ps[j].stride == ps[j - 1].stride
      {
        assert ps[j] == rest[j - 1];
        if j > 1 { assert ps[j - 1] == rest[j - 2]; }
      }
    } else if n > 0 && n % 2 == 0 {
      HalfIsOdd(n);
      PlanTwo(n);
      assert n == 2 * (n / 2);
    } else if n % 2 != 0 {
      OddNotFour(n);
      PlanOdd(n);
    }
  }

  /** For a power of two the last stage has stride 1, and the plan is empty exactly for one sample. */
  lemma {:induction false} PlanEnds(n: nat)
    requires IsPowerOfTwo(n)
    ensures |Plan(n)| > 0 ==> Plan(n)[|Plan(n)| - 1].stride == 1
    ensures Plan(n) == [] <==> n == 1
  {
    if n % 4 == 0 {
      DivFour(n);
      PlanFour(n);
      PowerFour(n);
      PlanEnds(n / 4);
    } else if n % 2 == 0 {
      HalfIsOdd(n);
      PlanTwo(n);
      PowerTwo(n);
    } else {
      OddNotFour(n);
      PlanOdd(n);
    }
  }

  /**
   * A well-formed stage list as `kf_work` consumes it: every radix is 2 or
   * 4, and each stage of stride m > 1 is followed by a stage of size m.
   * Entries after the first stride-1 stage are never read.
   */
  predicate Chain(fs: seq<Factor>) {
    && |fs| >= 1 && (fs[0].radix == 2 || fs[0].radix == 4) && fs[0].stride >= 1
    && (fs[0].stride > 1 ==> |fs| >= 2 && fs[1].radix * fs[1].stride == fs[0].stride && Chain(fs[1..]))
  }

  /** The number of samples a stage list transforms. */
  function Size(fs: seq<Factor>): int
    requires |fs| >= 1
  {
    fs[0].radix * fs[0].stride
  }

  /** Slots after a well-formed list do not matter. */
  lemma {:induction false} ChainExtends(fs: seq<Factor>, tail: seq<Factor>)
    requires Chain(fs)
    ensures Chain(fs + tail) && Size(fs + tail) == Size(fs)
  {
    if fs[0].stride > 1 {
      ChainExtends(fs[1..], tail);
      assert (fs + tail)[1..] == fs[1..] + tail;
    }
  }

  /** The plan of a power of two of at least 2 is a well-formed list for it. */
  lemma {:induction false} PlanIsChain(n: nat)
    requires IsPowerOfTwo(n) && n >= 2
    ensures Chain(Plan(n)) && Size(Plan(n)) == n
  {
    if n % 4 == 0 {
      DivFour(n);
      PlanFour(n);
      PowerFour(n);
      if n / 4 >= 2 {
        PlanIsChain(n / 4);
        assert Plan(n)[1..] == Plan(n / 4);
      } else {
        PlanOdd(n / 4);
      }
    } else {
      HalfIsOdd(n);
      PlanTwo(n);
    }
  }

  /**
   * Unlike every larger power of two, a single sample passes `kf_factor`
   * with no stage written, yet `kf_work` reads a first stage: the list it
   * would get is not well formed.
   */
  lemma OneSampleHasNoStage()
    ensures IsPowerOfTwo(1) && Residue(1) == 1 && Plan(1) == [] && !Chain(Plan(1))
  {
  }

  /** What the loops of `kf_factor` keep: the stages written so far followed by the plan of what is left make the plan of the input. */
  predicate Tracks(written: seq<Factor>, n: nat, n0: nat) {
    written + Plan(n) == Plan(n0) && Residue(n) == Residue(n0)
  }

  /** One step of the radix-4 loop of `kf_factor` keeps `Tracks`. */
  lemma PlanStepFour(written: seq<Factor>, n: nat, n0: nat)
    requires n > 0 && n % 4 == 0 && Tracks(written, n, n0)
    ensures Tracks(written + [Factor(4, n / 4)], n / 4, n0) && n / 4 > 0
  {
    DivFour(n);
    PlanFour(n);
    var stage := Factor(4, n / 4);
    assert written + [stage] + Plan(n / 4) == written + ([stage] + Plan(n / 4));
  }

  /** One step of the radix-2 loop keeps `Tracks` and leaves an odd number, so that loop runs at most once. */
  lemma PlanStepTwo(written: seq<Factor>, n: nat, n0: nat)
    requires n > 0 && n % 2 == 0 && n % 4 != 0 && Tracks(written, n, n0)
    ensures Tracks(written + [Factor(2, n / 2)], n / 2, n0) && n / 2 > 0
    ensures (n / 2) % 2 == 1 && (n / 2) % 4 != 0
  {
    HalfIsOdd(n);
    PlanTwo(n);
    PlanOdd(n / 2);
    var stage := Factor(2, n / 2);
    assert written + [stage] + Plan(n / 2) == written + ([stage] + Plan(n / 2));
  }

  /** When both loops have stopped, nothing is left to plan and `n` is the residue. */
  lemma PlanDone(written: seq<Factor>, n: nat, n0: nat)
    requires n > 0 && n % 2 != 0 && Tracks(written, n, n0)
    ensures written == Plan(n0) && Residue(n0) == n
  {
    OddNotFour(n);
    PlanOdd(n);
  }

  /**
   * The radix-4 loop of `kf_factor`: on return with `done`, `n` has no
   * factor 4 left and the first `i` slots hold the stages written so far;
   * without `done` the block overflowed, which only 0 can cause.
   */
  method FactorFours(n0: u32, facbuf: array<Factor>) returns (done: bool, n: nat, i: nat, ghost written: seq<Factor>)
    requires facbuf.Length == MAXFACTORS
    modifies facbuf
    ensures !done ==> n0 == 0
    ensures done ==> && i <= MAXFACTORS && |written| == i && n % 4 != 0
                     && n0 > 0 && n > 0 && Tracks(written, n, n0)
                     && (forall j :: 0 <= j < i ==> facbuf[j] == written[j])
                     && (forall j :: i <= j < MAXFACTORS ==> facbuf[j] == old(facbuf[j]))
  {
    PlanFits(n0);
    n, i, written := n0, 0, [];
    assert Tracks(written, n, n0);
    while n % 4 == 0
      invariant 0 <= i <= MAXFACTORS && |written| == i
      invariant n0 == 0 ==> n == 0
      invariant n0 > 0 ==> n > 0 && Tracks(written, n, n0)
      invariant forall j :: 0 <= j < i ==> facbuf[j] == written[j]
      invariant forall j :: i <= j < MAXFACTORS ==> facbuf[j] == old(facbuf[j])
      decreases MAXFACTORS - i
    {
      if i >= MAXFACTORS {
        return false, n, i, written;
      }
      if n0 > 0 {
        PlanStepFour(written, n, n0);
      }
      n := n / 4;
      facbuf[i] := Factor(4, n);
      written := written + [Factor(4, n)];
      i := i + 1;
    }
    done := true;
  }

  /** `kf_factor`: fills `facbuf` with the plan of `n0` and reports whether `n0` is a power of two. */
  method KfFactor(n0: u32, facbuf: array<Factor>) returns (ok: bool)
    requires facbuf.Length == MAXFACTORS
    modifies facbuf
    ensures ok <==> IsPowerOfTwo(n0)
    ensures n0 > 0 ==> |Plan(n0)| <= MAXFACTORS
    ensures n0 > 0 ==> forall j :: 0 <= j < |Plan(n0)| ==> facbuf[j] == Plan(n0)[j]
    ensures n0 > 0 ==> forall j :: |Plan(n0)| <= j < MAXFACTORS ==> facbuf[j] == old(facbuf[j])
  {
    PlanFits(n0);
    var done, n, i, written := FactorFours(n0, facbuf);
    if !done {
      return false;
    }
    while n % 2 == 0
      invariant 0 <= i <= MAXFACTORS && |written| == i
      invariant n0 > 0 && n > 0 && n % 4 != 0 && Tracks(written, n, n0)
      invariant forall j :: 0 <= j < i ==> facbuf[j] == written[j]
      invariant forall j :: i <= j < MAXFACTORS ==> facbuf[j] == old(facbuf[j])
      decreases MAXFACTORS - i
    {
      if i >= MAXFACTORS {
        return false;
      }
      PlanStepTwo(written, n, n0);
      n := n / 2;
      facbuf[i] := Factor(2, n);
      written := written + [Factor(2, n)];
      i := i + 1;
    }
    PlanDone(written, n, n0);
    ResidueIsOneIffPowerOfTwo(n0);
    ok := n == 1;
  }

  // ---------------------------------------------------------------------
  // kf_work: index bookkeeping

  /** The arithmetic behind a child frame's arguments: its input offset stays below its stride, its output slot stays inside the parent's, and the sample count is kept. */
  lemma ChildArithmetic(fbeg: nat, fstride: nat, p: nat, m: nat, q: nat)
    requires fbeg < fstride && q < p
    ensures fbeg + q * fstride < fstride * p
    ensures q * m + m <= p * m
    ensures (fstride * p) * m == fstride * (p * m)
  {
    assert fbeg + q * fstride < (q + 1) * fstride;
    assert (q + 1) * fstride <= p * fstride by { MulLe(q + 1, p, fstride); }
    MulLe(q + 1, p, m);
  }

  /** Sub-frame `q` of a frame gets a well-formed stage list and arguments that fit. */
  lemma ChildFits(fs: seq<Factor>, x: seq<Cpx>, fbeg: nat, fstride: nat, tw: seq<Cpx>, q: nat)
    requires Chain(fs) && fs[0].stride > 1 && Fits(fs, x, fbeg, fstride, tw) && q < fs[0].radix
    ensures Chain(fs[1..]) && Size(fs[1..]) == fs[0].stride
    ensures Fits(fs[1..], x, fbeg + q * fstride, fstride * fs[0].radix, tw)
    ensures q * fs[0].stride + fs[0].stride <= Size(fs)
  {
    ChildArithmetic(fbeg, fstride, fs[0].radix, fs[0].stride, q);
  }

  lemma MulLe(a: nat, b: nat, c: nat)
    requires a <= b
    ensures a * c <= b * c
  {
  }

  lemma MulSucc(a: nat, b: nat)
    ensures (a + 1) * b == a * b + b
  {
  }

  /** The last twiddle a radix-2 or radix-4 butterfly of a frame of `p * m` samples reads lies inside the `n - 1` twiddles. */
  lemma TwiddleBound(fstride: nat, p: nat, m: nat, k: nat)
    requires fstride >= 1 && m >= 1 && k < m && (p == 2 || p == 4)
    ensures (p - 1) * (k * fstride) <= (p - 1) * ((m - 1) * fstride) < fstride * (p * m) - 1
  {
    MulLe(k, m - 1, fstride);
    var a, b := k * fstride, (m - 1) * fstride;
    assert m * fstride == b + fstride;
    if p == 2 {
      assert fstride * (p * m) == 2 * (m * fstride);
      assert (p - 1) * a == a && (p - 1) * b == b;
    } else {
      assert fstride * (p * m) == 4 * (m * fstride);
      assert (p - 1) * a == 3 * a && (p - 1) * b == 3 * b;
    }
  }

  /** The arguments of a frame fit its input and the twiddle table: `fstride * p * m` is the sample count. */
  predicate Fits(fs: seq<Factor>, x: seq<Cpx>, fbeg: nat, fstride: nat, tw: seq<Cpx>)
    requires |fs| >= 1
  {
    fbeg < fstride && fstride * Size(fs) == |x| && |tw| + 1 == |x|
  }

  // ---------------------------------------------------------------------
  // kf_work: what it computes

  /** The base case of `kf_work`: sample `j` of the frame is input sample `fbeg + j * fstride`. */
  function Decimated(x: seq<Cpx>, fbeg: nat, fstride: nat, p: nat, j: nat): Cpx
    requires fbeg < fstride && fstride * p <= |x| && j < p
  {
    ChildArithmetic(fbeg, fstride, p, 1, j);
    x[fbeg + j * fstride]
  }

  /** The `p` samples a last-stage frame gathers. */
  function DecimatedSeq(x: seq<Cpx>, fbeg: nat, fstride: nat, p: nat): (r: seq<Cpx>)
    requires fbeg < fstride && fstride * p <= |x|
    ensures |r| == p
  {
    seq(p, j requires 0 <= j < p => Decimated(x, fbeg, fstride, p, j))
  }

  /** `kf_bfly2` on one pair: the new top and bottom values at offset `k`. */
  function Bfly2Top(s: seq<Cpx>, m: nat, fstride: nat, tw: seq<Cpx>, k: nat): Cpx
    requires |s| == 2 * m && k < m && (m - 1) * fstride < |tw|
  {
    MulLe(k, m - 1, fstride);
    CAdd(s[k], CMul(s[m + k], tw[k * fstride]))
  }

  function Bfly2Bottom(s: seq<Cpx>, m: nat, fstride: nat, tw: seq<Cpx>, k: nat): Cpx
    requires |s| == 2 * m && k < m && (m - 1) * fstride < |tw|
  {
    MulLe(k, m - 1, fstride);
    CSub(s[k], CMul(s[m + k], tw[k * fstride]))
  }

  /** The first `k` values `kf_bfly2` leaves in the top half (`c == 0`) or the bottom half (`c == 1`) of a frame. */
  function Bfly2Half(s: seq<Cpx>, m: nat, fstride: nat, tw: seq<Cpx>, c: nat, k: nat): (r: seq<Cpx>)
    requires |s| == 2 * m && (m - 1) * fstride < |tw| && k <= m
    ensures |r| == k
    decreases k
  {
    if k == 0 then []
    else Bfly2Half(s, m, fstride, tw, c, k - 1) + [if c == 0 then Bfly2Top(s, m, fstride, tw, k - 1) else Bfly2Bottom(s, m, fstride, tw, k - 1)]
  }

  lemma {:induction false} Bfly2HalfAt(s: seq<Cpx>, m: nat, fstride: nat, tw: seq<Cpx>, c: nat, k: nat, j: nat)
    requires |s| == 2 * m && (m - 1) * fstride < |tw| && j < k <= m
    ensures Bfly2Half(s, m, fstride, tw, c, k)[j] == if c == 0 then Bfly2Top(s, m, fstride, tw, j) else Bfly2Bottom(s, m, fstride, tw, j)
    decreases k
  {
    if j < k - 1 {
      Bfly2HalfAt(s, m, fstride, tw, c, k - 1, j);
    }
  }

  /** `kf_bfly2` on a whole frame of `2 * m` values. */
  function Bfly2Seq(s: seq<Cpx>, m: nat, fstride: nat, tw: seq<Cpx>): (r: seq<Cpx>)
    requires |s| == 2 * m && (m - 1) * fstride < |tw|
    ensures |r| == 2 * m
  {
    Bfly2Half(s, m, fstride, tw, 0, m) + Bfly2Half(s, m, fstride, tw, 1, m)
  }

  /** A frame whose top and bottom halves hold the values of `Bfly2Top` and `Bfly2Bottom` is `Bfly2Seq`. */
  lemma Bfly2Done(s: seq<Cpx>, o: seq<Cpx>, m: nat, fstride: nat, tw: seq<Cpx>)
    requires |s| == 2 * m && (m - 1) * fstride < |tw| && |o| == 2 * m
    requires forall j :: 0 <= j < m ==> o[j] == Bfly2Top(s, m, fstride, tw, j) && o[m + j] == Bfly2Bottom(s, m, fstride, tw, j)
    ensures o == Bfly2Seq(s, m, fstride, tw)
  {
    forall j | 0 <= j < m
      ensures o[j] == Bfly2Half(s, m, fstride, tw, 0, m)[j] && o[m + j] == Bfly2Half(s, m, fstride, tw, 1, m)[j]
    {
      Bfly2HalfAt(s, m, fstride, tw, 0, m, j);
      Bfly2HalfAt(s, m, fstride, tw, 1, m, j);
    }
    assert o[..m] == Bfly2Half(s, m, fstride, tw, 0, m);
    assert o[m..] == Bfly2Half(s, m, fstride, tw, 1, m);
    assert o == o[..m] + o[m..];
  }

  /** One step of `kf_bfly4`: from the four values at offsets `k`, `k + m`, `k + 2m`, `k + 3m` and three twiddles, the four new values in the same order. */
  function Bfly4At(a: Cpx, b: Cpx, c: Cpx, d: Cpx, w1: Cpx, w2: Cpx, w3: Cpx): (Cpx, Cpx, Cpx, Cpx) {
    var s0 := CMul(b, w1);
    var s1 := CMul(c, w2);
    var s2 := CMul(d, w3);
    var s5 := CSub(a, s1);
    var a1 := CAdd(a, s1);
    var s3 := CAdd(s0, s2);
    var s4 := CSub(s0, s2);
    (CAdd(a1, s3), Cpx(s5.r + s4.i, s5.i - s4.r), CSub(a1, s3), Cpx(s5.r - s4.i, s5.i + s4.r))
  }

  /** `kf_bfly4` at offset `k` of a frame of `4 * m` values, reading twiddles `k`, `2k` and `3k` strides in. */
  function Bfly4Step(s: seq<Cpx>, m: nat, fstride: nat, tw: seq<Cpx>, k: nat): (Cpx, Cpx, Cpx, Cpx)
    requires |s| == 4 * m && k < m && 3 * ((m - 1) * fstride) < |tw|
  {
    MulLe(k, m - 1, fstride);
    MulLe(k * fstride, (m - 1) * fstride, 3);
    Bfly4At(s[k], s[m + k], s[2 * m + k], s[3 * m + k], tw[k * fstride], tw[2 * (k * fstride)], tw[3 * (k * fstride)])
  }

  /** Result `c` (0 to 3) of a `kf_bfly4` step. */
  function Pick(t: (Cpx, Cpx, Cpx, Cpx), c: nat): Cpx {
    if c == 0 then t.0 else if c == 1 then t.1 else if c == 2 then t.2 else t.3
  }

  /** The first `k` values `kf_bfly4` leaves in quarter `c` of a frame. */
  function Bfly4Quarter(s: seq<Cpx>, m: nat, fstride: nat, tw: seq<Cpx>, c: nat, k: nat): (r: seq<Cpx>)
    requires |s| == 4 * m && 3 * ((m - 1) * fstride) < |tw| && k <= m
    ensures |r| == k
    decreases k
  {
    if k == 0 then []
    else Bfly4Quarter(s, m, fstride, tw, c, k - 1) + [Pick(Bfly4Step(s, m, fstride, tw, k - 1), c)]
  }

  lemma {:induction false} Bfly4QuarterAt(s: seq<Cpx>, m: nat, fstride: nat, tw: seq<Cpx>, c: nat, k: nat, j: nat)
    requires |s| == 4 * m && 3 * ((m - 1) * fstride) < |tw| && j < k <= m
    ensures Bfly4Quarter(s, m, fstride, tw, c, k)[j] == Pick(Bfly4Step(s, m, fstride, tw, j), c)
    decreases k
  {
    if j < k - 1 {
      Bfly4QuarterAt(s, m, fstride, tw, c, k - 1, j);
    }
  }

  /** `kf_bfly4` on a whole frame of `4 * m` values. */
  function Bfly4Seq(s: seq<Cpx>, m: nat, fstride: nat, tw: seq<Cpx>): (r: seq<Cpx>)
    requires |s| == 4 * m && 3 * ((m - 1) * fstride) < |tw|
    ensures |r| == 4 * m
  {
    Bfly4Quarter(s, m, fstride, tw, 0, m) + Bfly4Quarter(s, m, fstride, tw, 1, m)
    + Bfly4Quarter(s, m, fstride, tw, 2, m) + Bfly4Quarter(s, m, fstride, tw, 3, m)
  }

  /**
   * The values a frame of `kf_work` gathers in its `p * m` output slots
   * before the butterfly: the decimated input for a last stage, otherwise
   * the outputs of its `p` sub-frames side by side.
   */
  function Gathered(fs: seq<Factor>, x: seq<Cpx>, fbeg: nat, fstride: nat, tw: seq<Cpx>): (r: seq<Cpx>)
    requires Chain(fs) && Fits(fs, x, fbeg, fstride, tw)
    ensures |r| == Size(fs)
    decreases |fs|, 1, 0
  {
    var p, m := fs[0].radix, fs[0].stride;
    if m == 1 then
      DecimatedSeq(x, fbeg, fstride, p)
    else
      Subs(fs, x, fbeg, fstride, tw, p)
  }

  /** The radix-`p` butterfly of `kf_work` over a frame of `p * m` values. */
  function Butterfly(p: int, y: seq<Cpx>, m: nat, fstride: nat, tw: seq<Cpx>): (r: seq<Cpx>)
    requires (p == 2 || p == 4) && m >= 1 && fstride >= 1 && |y| == p * m && |tw| + 1 == fstride * (p * m)
  {
    TwiddleBound(fstride, p, m, 0);
    if p == 2 then Bfly2Seq(y, m, fstride, tw) else Bfly4Seq(y, m, fstride, tw)
  }

  /**
   * The values a frame of `kf_work` that runs to completion leaves in its
   * `p * m` output slots: its butterfly applied to what it gathered. This
   * is the recursion the code performs; it is not related here to the sum
   * that defines a discrete Fourier transform.
   */
  function Transform(fs: seq<Factor>, x: seq<Cpx>, fbeg: nat, fstride: nat, tw: seq<Cpx>): (r: seq<Cpx>)
    requires Chain(fs) && Fits(fs, x, fbeg, fstride, tw)
    ensures |r| == Size(fs)
    decreases |fs|, 2, 0
  {
    Butterfly(fs[0].radix, Gathered(fs, x, fbeg, fstride, tw), fs[0].stride, fstride, tw)
  }

  /** The outputs of the first `q` sub-frames of a frame, side by side. */
  function Subs(fs: seq<Factor>, x: seq<Cpx>, fbeg: nat, fstride: nat, tw: seq<Cpx>, q: nat): (r: seq<Cpx>)
    requires Chain(fs) && fs[0].stride > 1 && Fits(fs, x, fbeg, fstride, tw) && q <= fs[0].radix
    ensures |r| == q * fs[0].stride
    decreases |fs|, 0, q
  {
    if q == 0 then []
    else
      var p, m := fs[0].radix, fs[0].stride;
      ChildArithmetic(fbeg, fstride, p, m, q - 1);
      Subs(fs, x, fbeg, fstride, tw, q - 1) + Transform(fs[1..], x, fbeg + (q - 1) * fstride, fstride * p, tw)
  }

  /** The outputs of the first `q + 1` sub-frames are those of the first `q` followed by sub-frame `q`'s. */
  lemma SubsNext(fs: seq<Factor>, x: seq<Cpx>, fbeg: nat, fstride: nat, tw: seq<Cpx>, q: nat)
    requires Chain(fs) && fs[0].stride > 1 && Fits(fs, x, fbeg, fstride, tw) && q < fs[0].radix
    ensures fbeg + q * fstride < fstride * fs[0].radix && Chain(fs[1..]) && Fits(fs[1..], x, fbeg + q * fstride, fstride * fs[0].radix, tw)
    ensures Subs(fs, x, fbeg, fstride, tw, q + 1)
            == Subs(fs, x, fbeg, fstride, tw, q) + Transform(fs[1..], x, fbeg + q * fstride, fstride * fs[0].radix, tw)
  {
    ChildFits(fs, x, fbeg, fstride, tw, q);
  }

  /** What a frame with sub-frames works under: a well-formed stage list whose first stage has sub-frames, input samples in range, and room for its outputs at `beg`. */
  ghost predicate Round(fs: seq<Factor>, f: seq<Cpx>, fbeg: nat, fstride: nat, tw: seq<Cpx>, beg: nat, len: nat) {
    Chain(fs) && fs[0].stride > 1 && Fits(fs, f, fbeg, fstride, tw) && beg + Size(fs) <= len
  }

  /** Outside `[lo, hi)`, `a` still holds what `o` held. */
  ghost predicate Untouched(a: seq<Cpx>, o: seq<Cpx>, lo: nat, hi: nat) {
    |a| == |o| && forall j :: 0 <= j < |a| && !(lo <= j < hi) ==> a[j] == o[j]
  }

  /** Writes to `[lo, mid)` followed by writes to `[mid, hi)` touch nothing outside `[lo, hi)`. */
  lemma UntouchedGrow(o: seq<Cpx>, before: seq<Cpx>, after: seq<Cpx>, lo: nat, mid: nat, hi: nat)
    requires lo <= mid <= hi && Untouched(before, o, lo, mid) && Untouched(after, before, mid, hi)
    ensures Untouched(after, o, lo, hi)
  {
  }

  /** A write of `b` to `after[mid..hi]` that touches nothing else extends a prefix `a` ending at `mid` to `a + b`. */
  lemma SliceGrow(before: seq<Cpx>, after: seq<Cpx>, lo: nat, mid: nat, hi: nat, a: seq<Cpx>, b: seq<Cpx>)
    requires |before| == |after| && lo <= mid <= hi <= |after|
    requires before[lo..mid] == a && after[mid..hi] == b
    requires forall j :: 0 <= j < |after| && !(mid <= j < hi) ==> after[j] == before[j]
    ensures after[lo..hi] == a + b
  {
    assert after[lo..mid] == before[lo..mid];
    assert after[lo..hi] == after[lo..mid] + after[mid..hi];
  }

  /** A sub-frame that writes the values of sub-frame `q` right after the first `q`, touching nothing else, extends them to the first `q + 1`. */
  lemma ChildWritten(before: seq<Cpx>, after: seq<Cpx>, beg: nat, out: nat, fs: seq<Factor>, x: seq<Cpx>, fbeg: nat, fstride: nat, tw: seq<Cpx>, q: nat, fi: nat)
    requires Chain(fs) && fs[0].stride > 1 && Fits(fs, x, fbeg, fstride, tw) && q < fs[0].radix && fi == fbeg + q * fstride
    requires |before| == |after| && beg <= out && out + fs[0].stride <= |after|
    requires before[beg..out] == Subs(fs, x, fbeg, fstride, tw, q)
    requires Chain(fs[1..]) && Fits(fs[1..], x, fi, fstride * fs[0].radix, tw)
    requires after[out..out + Size(fs[1..])] == Transform(fs[1..], x, fi, fstride * fs[0].radix, tw)
    requires forall j :: 0 <= j < |after| && !(out <= j < out + Size(fs[1..])) ==> after[j] == before[j]
    ensures after[beg..out + fs[0].stride] == Subs(fs, x, fbeg, fstride, tw, q + 1)
  {
    assert Size(fs[1..]) == fs[0].stride;
    SliceGrow(before, after, beg, out, out + Size(fs[1..]), Subs(fs, x, fbeg, fstride, tw, q), Transform(fs[1..], x, fi, fstride * fs[0].radix, tw));
    SubsNext(fs, x, fbeg, fstride, tw, q);
  }

  // ---------------------------------------------------------------------
  // kf_work: the stop checks
  //
  // Every call of the callback during one transform goes to the same
  // record, so the call numbered `j` (counted from the start of the
  // transform, where the record is in state `v0`) returns
  // `Answer(cfg, v0, j)`. A frame entered when the next call is number
  // `i` is described by the number of the call after its last one and by
  // the value it returns.

  /** Where the call numbering stood when a frame returned, and the value it returned. */
  datatype Run = Run(next: nat, rv: int)

  /**
   * A frame: its sub-frames in order (none for a last stage), stopping at
   * the first non-zero return; then one check, whose non-zero result is
   * returned before the butterfly; then, after the butterfly, a second
   * check whose result is returned.
   */
  function Frame(cfg: ProbeConfig, v0: ProbeView, fs: seq<Factor>, i: nat): Run
    requires Chain(fs)
    decreases |fs|, 1, 0
  {
    var subs := if fs[0].stride == 1 then Run(i, 0) else Children(cfg, v0, fs, i, 0);
    if subs.rv != 0 then subs
    else if Answer(cfg, v0, subs.next) != 0 then Run(subs.next + 1, Answer(cfg, v0, subs.next))
    else Run(subs.next + 2, Answer(cfg, v0, subs.next + 1))
  }

  /** Sub-frames `q` to `p - 1` of a frame, the first of them entered at call `i`, stopping at the first that returns non-zero. */
  function Children(cfg: ProbeConfig, v0: ProbeView, fs: seq<Factor>, i: nat, q: nat): Run
    requires Chain(fs) && fs[0].stride > 1 && q <= fs[0].radix
    decreases |fs|, 0, fs[0].radix - q
  {
    if q == fs[0].radix then Run(i, 0)
    else
      var sub := Frame(cfg, v0, fs[1..], i);
      if sub.rv != 0 then sub else Children(cfg, v0, fs, sub.next, q + 1)
  }

  /** The number of frames `kf_work` enters for a stage list, counting the first. */
  function Frames(fs: seq<Factor>): nat
    requires Chain(fs)
    decreases |fs|
  {
    if fs[0].stride == 1 then 1 else 1 + (if fs[0].radix == 2 then 2 else 4) * Frames(fs[1..])
  }

  /** Calls `i` to `e - 1` all returned 0. */
  ghost predicate AllZero(cfg: ProbeConfig, v0: ProbeView, i: nat, e: nat) {
    forall j :: i <= j < e ==> Answer(cfg, v0, j) == 0
  }

  /** A run entered at call `i` made at least one call, every call but its last returned 0, and it returned the last one's result. */
  ghost predicate StopsAtFirstNonZero(cfg: ProbeConfig, v0: ProbeView, i: nat, r: Run) {
    i < r.next && AllZero(cfg, v0, i, r.next - 1) && r.rv == Answer(cfg, v0, r.next - 1)
  }

  /**
   * A log of the butterflies a run performed, each recorded by the number
   * of callback calls made when it ran (`Trace.calls`, which is `base`
   * when the call numbered 0 is made). In call order, every butterfly came
   * right after a call of the run that answered 0, from call `i` on, and
   * before call `e - 1`. With `e` the call after the run's last, no
   * butterfly runs after the run's last call, in particular after the
   * non-zero answer that stopped it.
   */
  ghost predicate CombinedBefore(cfg: ProbeConfig, v0: ProbeView, base: nat, log: seq<nat>, i: nat, e: nat) {
    && (forall k :: 0 <= k < |log| ==> base + i < log[k] < base + e && AfterQuiet(cfg, v0, base, log[k]))
    && (forall k, l :: 0 <= k < l < |log| ==> log[k] < log[l])
  }

  /** Appending to a log in two steps appends the two parts together. */
  lemma AppendAssoc(a: seq<nat>, b: seq<nat>, c: seq<nat>)
    ensures a + b + c == a + (b + c)
  {
  }

  /** A frame whose sub-frames ran as `subs` ends as the first check after them decides. */
  lemma FrameAfter(cfg: ProbeConfig, v0: ProbeView, fs: seq<Factor>, i: nat, subs: Run)
    requires Chain(fs) && subs == (if fs[0].stride == 1 then Run(i, 0) else Children(cfg, v0, fs, i, 0))
    ensures Frame(cfg, v0, fs, i) == if subs.rv != 0 then subs
                                    else if Answer(cfg, v0, subs.next) != 0 then Run(subs.next + 1, Answer(cfg, v0, subs.next))
                                    else Run(subs.next + 2, Answer(cfg, v0, subs.next + 1))
  {
  }

  /** Count `c` of the trace follows a call, counted from `v0` made at count `base`, that answered 0. */
  ghost predicate AfterQuiet(cfg: ProbeConfig, v0: ProbeView, base: nat, c: nat) {
    base < c && Answer(cfg, v0, c - base - 1) == 0
  }

  /** The butterflies of a run followed by those of the run that comes after it. */
  lemma CombinedJoin(cfg: ProbeConfig, v0: ProbeView, base: nat, a: seq<nat>, b: seq<nat>, i: nat, e1: nat, e2: nat)
    requires CombinedBefore(cfg, v0, base, a, i, e1) && CombinedBefore(cfg, v0, base, b, e1, e2) && i <= e1 <= e2
    ensures CombinedBefore(cfg, v0, base, a + b, i, e2)
  {
    forall k, l | 0 <= k < l < |a + b|
      ensures (a + b)[k] < (a + b)[l]
    {
      if l >= |a| && k < |a| {
        assert (a + b)[k] == a[k] && (a + b)[l] == b[l - |a|];
      }
    }
  }

  /** The log of the first `q` sub-frames of a frame entered at call `i`, the next call being `at`. */
  ghost predicate SubLog(cfg: ProbeConfig, v0: ProbeView, fs: seq<Factor>, base: nat, log: seq<nat>, i: nat, at: nat, q: nat)
    requires Chain(fs) && fs[0].stride > 1
  {
    i <= at && CombinedBefore(cfg, v0, base, log, i, at) && |log| == q * Frames(fs[1..])
  }

  /** A log of butterflies that all ran before call `e - 1` holds none run right after call `c` when `c` is at least `e - 1`. */
  lemma CombinedNotAfter(cfg: ProbeConfig, v0: ProbeView, base: nat, log: seq<nat>, i: nat, e: nat, c: nat)
    requires CombinedBefore(cfg, v0, base, log, i, e) && e <= c + 1
    ensures base + c + 1 !in log
  {
  }

  /** A frame's butterfly, run right after call `c` answered 0 and followed by the frame's second check. */
  lemma CombinedAppend(cfg: ProbeConfig, v0: ProbeView, base: nat, a: seq<nat>, i: nat, c: nat)
    requires CombinedBefore(cfg, v0, base, a, i, c) && i <= c && Answer(cfg, v0, c) == 0
    ensures CombinedBefore(cfg, v0, base, a + [base + c + 1], i, c + 2)
  {
  }

  /**
   * A frame returns the first non-zero check result, which is always its
   * last check: a non-zero result propagates unchanged through every
   * enclosing frame and nothing is checked after it.
   */
  lemma {:induction false} FrameStops(cfg: ProbeConfig, v0: ProbeView, fs: seq<Factor>, i: nat)
    requires Chain(fs)
    ensures StopsAtFirstNonZero(cfg, v0, i, Frame(cfg, v0, fs, i))
    decreases |fs|, 1, 0
  {
    if fs[0].stride > 1 {
      ChildrenStop(cfg, v0, fs, i, 0);
    }
  }

  lemma {:induction false} ChildrenStop(cfg: ProbeConfig, v0: ProbeView, fs: seq<Factor>, i: nat, q: nat)
    requires Chain(fs) && fs[0].stride > 1 && q <= fs[0].radix
    ensures var r := Children(cfg, v0, fs, i, q);
            && (r.rv == 0 ==> i <= r.next && AllZero(cfg, v0, i, r.next))
            && (r.rv != 0 ==> StopsAtFirstNonZero(cfg, v0, i, r))
    decreases |fs|, 0, fs[0].radix - q
  {
    if q < fs[0].radix {
      var sub := Frame(cfg, v0, fs[1..], i);
      FrameStops(cfg, v0, fs[1..], i);
      if sub.rv == 0 {
        ChildrenStop(cfg, v0, fs, sub.next, q + 1);
      }
    }
  }

  /** A frame makes at most two checks for every frame it enters. */
  lemma {:induction false} FrameChecks(cfg: ProbeConfig, v0: ProbeView, fs: seq<Factor>, i: nat)
    requires Chain(fs)
    ensures Frame(cfg, v0, fs, i).next <= i + 2 * Frames(fs)
    decreases |fs|, 1, 0
  {
    if fs[0].stride > 1 {
      ChildrenChecks(cfg, v0, fs, i, 0);
    }
  }

  lemma {:induction false} ChildrenChecks(cfg: ProbeConfig, v0: ProbeView, fs: seq<Factor>, i: nat, q: nat)
    requires Chain(fs) && fs[0].stride > 1 && q <= fs[0].radix
    ensures Children(cfg, v0, fs, i, q).next <= i + (fs[0].radix - q) * (2 * Frames(fs[1..]))
    decreases |fs|, 0, fs[0].radix - q
  {
    if q < fs[0].radix {
      var sub := Frame(cfg, v0, fs[1..], i);
      FrameChecks(cfg, v0, fs[1..], i);
      PeelOne(fs[0].radix - q, 2 * Frames(fs[1..]));
      if sub.rv == 0 {
        ChildrenChecks(cfg, v0, fs, sub.next, q + 1);
      }
    }
  }

  lemma PeelOne(a: int, b: int)
    requires a >= 1
    ensures a * b == b + (a - 1) * b
  {
  }

  /** The callback answers 0 whenever it is called: no signal is ever pending. */
  ghost predicate Quiet(cfg: ProbeConfig) {
    forall i :: cfg.signals(i) == 0
  }

  lemma {:induction false} QuietAnswer(cfg: ProbeConfig, v: ProbeView, n: nat)
    requires Quiet(cfg)
    ensures Answer(cfg, v, n) == 0
    decreases n
  {
    if n > 0 {
      QuietAnswer(cfg, CheckStep(cfg, v).1, n - 1);
    }
  }

  /** With no signal pending the transform runs to completion, making exactly two checks per frame and returning 0. */
  lemma {:induction false} QuietFrame(cfg: ProbeConfig, v0: ProbeView, fs: seq<Factor>, i: nat)
    requires Chain(fs) && Quiet(cfg)
    ensures Frame(cfg, v0, fs, i) == Run(i + 2 * Frames(fs), 0)
    decreases |fs|, 1, 0
  {
    var subs := if fs[0].stride == 1 then Run(i, 0) else Children(cfg, v0, fs, i, 0);
    if fs[0].stride > 1 {
      QuietChildren(cfg, v0, fs, i, 0);
    }
    QuietAnswer(cfg, v0, subs.next);
    QuietAnswer(cfg, v0, subs.next + 1);
  }

  lemma {:induction false} QuietChildren(cfg: ProbeConfig, v0: ProbeView, fs: seq<Factor>, i: nat, q: nat)
    requires Chain(fs) && fs[0].stride > 1 && q <= fs[0].radix && Quiet(cfg)
    ensures Children(cfg, v0, fs, i, q) == Run(i + (fs[0].radix - q) * (2 * Frames(fs[1..])), 0)
    decreases |fs|, 0, fs[0].radix - q
  {
    if q < fs[0].radix {
      var sub := Frame(cfg, v0, fs[1..], i);
      QuietFrame(cfg, v0, fs[1..], i);
      QuietChildren(cfg, v0, fs, sub.next, q + 1);
      PeelOne(fs[0].radix - q, 2 * Frames(fs[1..]));
    }
  }

  // ---------------------------------------------------------------------
  // The butterflies

  /** `kf_bfly2`: combines the two halves of the `2 * m` values at `beg` in place, touching nothing else. */
  method Bfly2(fout: array<Cpx>, beg: nat, fstride: nat, tw: seq<Cpx>, m: nat)
    requires m >= 1 && beg + 2 * m <= fout.Length && (m - 1) * fstride < |tw|
    modifies fout
    ensures fout[beg..beg + 2 * m] == Bfly2Seq(old(fout[beg..beg + 2 * m]), m, fstride, tw)
    ensures forall i :: 0 <= i < fout.Length && !(beg <= i < beg + 2 * m) ==> fout[i] == old(fout[i])
  {
    ghost var s := fout[beg..beg + 2 * m];
    var k := 0;
    var tw1 := 0;
    while k < m
      invariant 0 <= k <= m && tw1 == k * fstride
      invariant forall i :: 0 <= i < k ==> fout[beg + i] == Bfly2Top(s, m, fstride, tw, i) && fout[beg + m + i] == Bfly2Bottom(s, m, fstride, tw, i)
      invariant forall j :: 0 <= j < fout.Length && !(beg <= j < beg + k) && !(beg + m <= j < beg + m + k) ==> fout[j] == old(fout[j])
    {
      MulLe(k, m - 1, fstride);
      var t := CMul(fout[beg + m + k], tw[tw1]);
      fout[beg + m + k] := CSub(fout[beg + k], t);
      fout[beg + k] := CAdd(fout[beg + k], t);
      MulSucc(k, fstride);
      tw1 := tw1 + fstride;
      k := k + 1;
    }
    ghost var o := fout[beg..beg + 2 * m];
    forall j | 0 <= j < m
      ensures o[j] == Bfly2Top(s, m, fstride, tw, j) && o[m + j] == Bfly2Bottom(s, m, fstride, tw, j)
    {
      assert o[j] == fout[beg + j] && o[m + j] == fout[beg + m + j];
    }
    Bfly2Done(s, o, m, fstride, tw);
  }

  /** Offset `d` of a frame of `4 * m` values lies in one of the four quarters' first `k` places. */
  predicate Quartered(d: int, m: nat, k: nat) {
    (0 <= d < k) || (m <= d < m + k) || (2 * m <= d < 2 * m + k) || (3 * m <= d < 3 * m + k)
  }

  lemma QuarteredStep(d: int, m: nat, k: nat)
    requires k < m
    ensures Quartered(d, m, k + 1) <==> Quartered(d, m, k) || d == k || d == m + k || d == 2 * m + k || d == 3 * m + k
  {
  }

  /** The three twiddles pass `k` of `kf_bfly4` reads are in range. */
  lemma Bfly4Twiddles(k: nat, m: nat, fstride: nat, len: nat)
    requires k < m && 3 * ((m - 1) * fstride) < len
    ensures 0 <= k * fstride && 3 * (k * fstride) < len
  {
    MulLe(k, m - 1, fstride);
  }

  /** Where pass `k` of `kf_bfly4` puts its four results. */
  lemma Bfly4SeqAt(s: seq<Cpx>, m: nat, fstride: nat, w: seq<Cpx>, k: nat)
    requires |s| == 4 * m && k < m && 3 * ((m - 1) * fstride) < |w|
    ensures 0 <= k * fstride && 3 * (k * fstride) < |w|
    ensures var o, out := Bfly4Seq(s, m, fstride, w), Bfly4At(s[k], s[m + k], s[2 * m + k], s[3 * m + k], w[k * fstride], w[2 * (k * fstride)], w[3 * (k * fstride)]);
            o[k] == out.0 && o[m + k] == out.1 && o[2 * m + k] == out.2 && o[3 * m + k] == out.3
  {
    Bfly4Twiddles(k, m, fstride, |w|);
    assert Bfly4Step(s, m, fstride, w, k) == Bfly4At(s[k], s[m + k], s[2 * m + k], s[3 * m + k], w[k * fstride], w[2 * (k * fstride)], w[3 * (k * fstride)]);
    Bfly4QuarterAt(s, m, fstride, w, 0, m, k);
    Bfly4QuarterAt(s, m, fstride, w, 1, m, k);
    Bfly4QuarterAt(s, m, fstride, w, 2, m, k);
    Bfly4QuarterAt(s, m, fstride, w, 3, m, k);
  }

  /**
   * The array during `kf_bfly4` after `k` passes: the first `k` places of
   * each quarter of the frame at `beg` hold their results from `o`, every
   * other place its original value.
   */
  ghost predicate Mixed(a: seq<Cpx>, orig: seq<Cpx>, beg: nat, o: seq<Cpx>, m: nat, k: nat) {
    && |a| == |orig| && beg + 4 * m <= |orig| && |o| == 4 * m && k <= m
    && forall j :: 0 <= j < |a| ==> a[j] == if Quartered(j - beg, m, k) then o[j - beg] else orig[j]
  }

  /** Before pass `k` the four places it reads still hold their original values. */
  lemma MixedUntouched(a: seq<Cpx>, orig: seq<Cpx>, beg: nat, o: seq<Cpx>, m: nat, k: nat)
    requires Mixed(a, orig, beg, o, m, k) && k < m
    ensures a[beg + k] == orig[beg + k] && a[beg + m + k] == orig[beg + m + k]
    ensures a[beg + 2 * m + k] == orig[beg + 2 * m + k] && a[beg + 3 * m + k] == orig[beg + 3 * m + k]
  {
    assert !Quartered(k, m, k) && !Quartered(m + k, m, k) && !Quartered(2 * m + k, m, k) && !Quartered(3 * m + k, m, k);
  }

  /** One pass of `kf_bfly4` takes the array from `k` to `k + 1` finished places per quarter. */
  lemma Bfly4Advance(a: seq<Cpx>, orig: seq<Cpx>, beg: nat, o: seq<Cpx>, m: nat, k: nat)
    requires Mixed(a, orig, beg, o, m, k) && k < m
    ensures Mixed(a[beg + k := o[k]][beg + m + k := o[m + k]][beg + 2 * m + k := o[2 * m + k]][beg + 3 * m + k := o[3 * m + k]], orig, beg, o, m, k + 1)
  {
    var upd := a[beg + k := o[k]][beg + m + k := o[m + k]][beg + 2 * m + k := o[2 * m + k]][beg + 3 * m + k := o[3 * m + k]];
    forall j | 0 <= j < |upd|
      ensures upd[j] == if Quartered(j - beg, m, k + 1) then o[j - beg] else orig[j]
    {
      QuarteredStep(j - beg, m, k);
    }
  }

  /** Pass `k` of `kf_bfly4`, applied to the array after `k` passes, gives the array after `k + 1` passes. */
  lemma Bfly4Pass(orig: seq<Cpx>, beg: nat, w: seq<Cpx>, fstride: nat, m: nat, j: nat, before: seq<Cpx>)
    requires beg + 4 * m <= |orig| && j < m && 3 * ((m - 1) * fstride) < |w|
    requires Mixed(before, orig, beg, Bfly4Seq(orig[beg..beg + 4 * m], m, fstride, w), m, j)
    ensures 0 <= j * fstride && 3 * (j * fstride) < |w|
    ensures Mixed(PassAt(before, beg + j, m, w[j * fstride], w[2 * (j * fstride)], w[3 * (j * fstride)]),
                  orig, beg, Bfly4Seq(orig[beg..beg + 4 * m], m, fstride, w), m, j + 1)
  {
    Bfly4Twiddles(j, m, fstride, |w|);
    var s := orig[beg..beg + 4 * m];
    var o := Bfly4Seq(s, m, fstride, w);
    Bfly4SeqAt(s, m, fstride, w, j);
    MixedUntouched(before, orig, beg, o, m, j);
    assert (o[j], o[m + j], o[2 * m + j], o[3 * m + j])
           == Bfly4At(before[beg + j], before[beg + m + j], before[beg + 2 * m + j], before[beg + 3 * m + j],
                      w[j * fstride], w[2 * (j * fstride)], w[3 * (j * fstride)]);
    Bfly4Advance(before, orig, beg, o, m, j);
  }

  /** After all `m` passes the frame holds `o` and nothing else has changed. */
  lemma Bfly4Done(a: seq<Cpx>, orig: seq<Cpx>, beg: nat, o: seq<Cpx>, m: nat)
    requires Mixed(a, orig, beg, o, m, m)
    ensures a[beg..beg + 4 * m] == o && Untouched(a, orig, beg, beg + 4 * m)
  {
    forall d | 0 <= d < 4 * m
      ensures a[beg..beg + 4 * m][d] == o[d]
    {
      assert Quartered(d, m, m);
      assert a[beg + d] == o[d];
    }
    forall j | 0 <= j < |a| && !(beg <= j < beg + 4 * m)
      ensures a[j] == orig[j]
    {
      assert !Quartered(j - beg, m, m);
    }
  }

  /** Before the first pass nothing has changed. */
  lemma Bfly4Start(orig: seq<Cpx>, beg: nat, o: seq<Cpx>, m: nat)
    requires beg + 4 * m <= |orig| && |o| == 4 * m
    ensures Mixed(orig, orig, beg, o, m, 0)
  {
  }

  /** The values at `j`, `j + m`, `j + 2m` and `j + 3m` replaced by one step of `kf_bfly4`. */
  function PassAt(x: seq<Cpx>, j: nat, m: nat, w1: Cpx, w2: Cpx, w3: Cpx): (r: seq<Cpx>)
    requires j + 3 * m < |x|
  {
    var out := Bfly4At(x[j], x[j + m], x[j + 2 * m], x[j + 3 * m], w1, w2, w3);
    x[j := out.0][j + m := out.1][j + 2 * m := out.2][j + 3 * m := out.3]
  }

  /** One pass of the `kf_bfly4` loop: replaces the values at `j`, `j + m`, `j + 2m` and `j + 3m`, touching nothing else. */
  method Bfly4Point(fout: array<Cpx>, j: nat, m: nat, w1: Cpx, w2: Cpx, w3: Cpx)
    requires m >= 1 && j + 3 * m < fout.Length
    modifies fout
    ensures fout[..] == PassAt(old(fout[..]), j, m, w1, w2, w3)
  {
    var s0 := CMul(fout[j + m], w1);
    var s1 := CMul(fout[j + 2 * m], w2);
    var s2 := CMul(fout[j + 3 * m], w3);
    var f0 := fout[j];
    var s5 := CSub(f0, s1);
    f0 := CAdd(f0, s1);
    var s3 := CAdd(s0, s2);
    var s4 := CSub(s0, s2);
    fout[j + 2 * m] := CSub(f0, s3);
    fout[j] := CAdd(f0, s3);
    fout[j + m] := Cpx(s5.r + s4.i, s5.i - s4.r);
    fout[j + 3 * m] := Cpx(s5.r - s4.i, s5.i + s4.r);
  }

  /** `kf_bfly4`: combines the four quarters of the `4 * m` values at `beg` in place, touching nothing else. */
  method Bfly4(fout: array<Cpx>, beg: nat, fstride: nat, tw: seq<Cpx>, m: nat)
    requires m >= 1 && beg + 4 * m <= fout.Length && 3 * ((m - 1) * fstride) < |tw|
    modifies fout
    ensures fout[beg..beg + 4 * m] == Bfly4Seq(old(fout[beg..beg + 4 * m]), m, fstride, tw)
    ensures forall i :: 0 <= i < fout.Length && !(beg <= i < beg + 4 * m) ==> fout[i] == old(fout[i])
  {
    ghost var orig := fout[..];
    ghost var o := Bfly4Seq(orig[beg..beg + 4 * m], m, fstride, tw);
    var k := 0;
    var tw1, tw2, tw3 := 0, 0, 0;
    Bfly4Start(orig, beg, o, m);
    while k < m
      invariant 0 <= k <= m && tw1 == k * fstride && tw2 == 2 * tw1 && tw3 == 3 * tw1
      invariant Mixed(fout[..], orig, beg, o, m, k)
    {
      Bfly4Pass(orig, beg, tw, fstride, m, k, fout[..]);
      Bfly4Point(fout, beg + k, m, tw[tw1], tw[tw2], tw[tw3]);
      MulSucc(k, fstride);
      tw1 := tw1 + fstride;
      tw2 := tw2 + fstride * 2;
      tw3 := tw3 + fstride * 3;
      k := k + 1;
    }
    Bfly4Done(fout[..], orig, beg, o, m);
    assert fout[beg..beg + 4 * m] == fout[..][beg..beg + 4 * m];
  }



  // ---------------------------------------------------------------------
  // The state, kf_work and kiss_fft

  /**
   * `struct kiss_fft_state`: the stage list and the `n - 1` twiddles,
   * fixed once `kiss_fft_alloc` has filled them. The model also keeps
   * the sample count `n` (upstream KISS FFT's `nfft`), which the
   * corrected `KissFft` needs.
   */
  datatype State = State(n: nat, factors: seq<Factor>, twiddles: seq<Cpx>)
  {
    ghost predicate Valid() {
      && IsPowerOfTwo(n) && |factors| == MAXFACTORS && |twiddles| + 1 == n
      && (n >= 2 ==> Chain(factors) && Size(factors) == n)
    }
  }

  /** The base case of `kf_work`: sample `j` of the frame is input sample `fbeg + j * fstride`. */
  method CopyDecimated(fout: array<Cpx>, beg: nat, f: seq<Cpx>, fbeg: nat, fstride: nat, p: nat)
    requires fbeg < fstride && fstride * p <= |f| && beg + p <= fout.Length
    modifies fout
    ensures fout[beg..beg + p] == DecimatedSeq(f, fbeg, fstride, p)
    ensures forall i :: 0 <= i < fout.Length && !(beg <= i < beg + p) ==> fout[i] == old(fout[i])
  {
    var j := 0;
    var fi := fbeg;
    while j < p
      invariant 0 <= j <= p && fi == fbeg + j * fstride
      invariant forall i :: 0 <= i < j ==> fout[beg + i] == Decimated(f, fbeg, fstride, p, i)
      invariant forall i :: 0 <= i < fout.Length && !(beg <= i < beg + j) ==> fout[i] == old(fout[i])
    {
      ChildArithmetic(fbeg, fstride, p, 1, j);
      fout[beg + j] := f[fi];
      MulSucc(j, fstride);
      fi := fi + fstride;
      j := j + 1;
    }
    assert fout[beg..beg + p] == DecimatedSeq(f, fbeg, fstride, p);
  }

  /**
   * The `switch (p)` of `kf_work`: the butterfly of the frame's radix over
   * its `p * m` slots at `beg`, touching nothing else. It records itself in
   * `trace` at the current callback call count.
   */
  method Bfly(fout: array<Cpx>, beg: nat, p: int, fstride: nat, tw: seq<Cpx>, m: nat, trace: Trace)
    requires (p == 2 || p == 4) && m >= 1 && fstride >= 1 && beg + p * m <= fout.Length && |tw| + 1 == fstride * (p * m)
    modifies fout, trace
    ensures fout[beg..beg + p * m] == Butterfly(p, old(fout[beg..beg + p * m]), m, fstride, tw)
    ensures forall j :: 0 <= j < fout.Length && !(beg <= j < beg + p * m) ==> fout[j] == old(fout[j])
    ensures trace.calls == old(trace.calls) && trace.combined == old(trace.combined) + [trace.calls]
  {
    TwiddleBound(fstride, p, m, 0);
    if p == 2 {
      Bfly2(fout, beg, fstride, tw, m);
    } else {
      Bfly4(fout, beg, fstride, tw, m);
    }
    trace.combined := trace.combined + [trace.calls];
  }

  /**
   * `kf_work` on a frame whose stages, from this one on, are `fs` (the
   * source's `factors` pointer), entered when the next call of the
   * callback is call `i` of those counted from `v0`, the callback's state
   * when the transform began; call `i` is made when `probe.trace` has
   * counted `base + i` calls. It reads input samples `fbeg`,
   * `fbeg + fstride`, ... of `f`, makes the calls of `Frame` and returns
   * its result. Once the sub-frames are done, the first check decides:
   * a non-zero answer returns with the frame's `p * m` slots at `beg`
   * still holding the gathered values, and 0 lets the butterfly turn them
   * into the frame's `Transform` before the second check. `log` is what
   * the butterflies of the frame and its sub-frames appended to the
   * trace. Nothing outside the frame's slots changes.
   */
  method KfWork(fout: array<Cpx>, beg: nat, f: seq<Cpx>, fbeg: nat, fstride: nat, fs: seq<Factor>, st: State,
                probe: PeriodicSignalCheck, env: Env, ghost v0: ProbeView, ghost base: nat, ghost i: nat)
    returns (rv: int, ghost log: seq<nat>)
    requires Chain(fs) && Fits(fs, f, fbeg, fstride, st.twiddles) && beg + Size(fs) <= fout.Length
    requires probe.View(env) == Steps(probe.Config(env), v0, i) && probe.trace.calls == base + i
    modifies fout, probe, env, probe.trace
    ensures var r := Frame(probe.Config(env), v0, fs, i);
            && rv == r.rv && probe.View(env) == Steps(probe.Config(env), v0, r.next)
            && probe.trace.calls == base + r.next
    ensures probe.trace.combined == old(probe.trace.combined) + log
    ensures rv == 0 ==> fout[beg..beg + Size(fs)] == Transform(fs, f, fbeg, fstride, st.twiddles)
    ensures var subs := if fs[0].stride == 1 then Run(i, 0) else Children(probe.Config(env), v0, fs, i, 0);
            && (subs.rv == 0 ==>
                  fout[beg..beg + Size(fs)]
                  == if Answer(probe.Config(env), v0, subs.next) != 0 then Gathered(fs, f, fbeg, fstride, st.twiddles)
                     else Transform(fs, f, fbeg, fstride, st.twiddles))
            && (base + subs.next + 1 in log <==> subs.rv == 0 && Answer(probe.Config(env), v0, subs.next) == 0)
    ensures CombinedBefore(probe.Config(env), v0, base, log, i, Frame(probe.Config(env), v0, fs, i).next)
    ensures rv == 0 ==> |log| == Frames(fs)
    ensures forall j :: 0 <= j < fout.Length && !(beg <= j < beg + Size(fs)) ==> fout[j] == old(fout[j])
    decreases |fs|, 3
  {
    ghost var cfg, c0 := probe.Config(env), probe.trace.combined;
    ghost var at, own;
    rv, at, log := KfGather(fout, beg, f, fbeg, fstride, fs, st, probe, env, v0, base, i);
    FrameAfter(cfg, v0, fs, i, Run(at, rv));
    if rv != 0 {
      CombinedNotAfter(probe.Config(env), v0, base, log, i, at, at);
      return;
    }
    rv, own := KfCombine(fout, beg, f, fbeg, fstride, fs, st, probe, env, v0, base, i, at, log);
    AppendAssoc(c0, log, own);
    log := log + own;
  }

  /**
   * The second half of `kf_work`, once the frame's slots hold what it
   * gathered and the next call is call `at`: the first check, whose
   * non-zero answer returns before the butterfly, then the butterfly and
   * the second check. `own` is what the butterfly appended to the trace;
   * `logIn` is what the frame's sub-frames appended before.
   */
  method KfCombine(fout: array<Cpx>, beg: nat, f: seq<Cpx>, fbeg: nat, fstride: nat, fs: seq<Factor>, st: State,
                   probe: PeriodicSignalCheck, env: Env, ghost v0: ProbeView, ghost base: nat, ghost i: nat, ghost at: nat,
                   ghost logIn: seq<nat>)
    returns (rv: int, ghost own: seq<nat>)
    requires Chain(fs) && Fits(fs, f, fbeg, fstride, st.twiddles) && beg + Size(fs) <= fout.Length
    requires probe.View(env) == Steps(probe.Config(env), v0, at) && probe.trace.calls == base + at
    requires fout[beg..beg + Size(fs)] == Gathered(fs, f, fbeg, fstride, st.twiddles)
    requires i <= at && CombinedBefore(probe.Config(env), v0, base, logIn, i, at)
    modifies fout, probe, env, probe.trace
    ensures var a := Answer(probe.Config(env), v0, at);
            var r := if a != 0 then Run(at + 1, a) else Run(at + 2, Answer(probe.Config(env), v0, at + 1));
            && rv == r.rv && probe.View(env) == Steps(probe.Config(env), v0, r.next)
            && probe.trace.calls == base + r.next
            && probe.trace.combined == old(probe.trace.combined) + own
            && fout[beg..beg + Size(fs)] == (if a != 0 then Gathered(fs, f, fbeg, fstride, st.twiddles)
                                             else Transform(fs, f, fbeg, fstride, st.twiddles))
            && CombinedBefore(probe.Config(env), v0, base, logIn + own, i, r.next)
            && (base + at + 1 in logIn + own <==> a == 0)
            && |own| == (if a != 0 then 0 else 1)
    ensures forall j :: 0 <= j < fout.Length && !(beg <= j < beg + Size(fs)) ==> fout[j] == old(fout[j])
  {
    ghost var cfg := probe.Config(env);
    CombinedNotAfter(cfg, v0, base, logIn, i, at, at);
    own := [];
    StepsNext(cfg, v0, at);
    rv := probe.Check(env);
    if rv != 0 {
      assert logIn + own == logIn;
      return;
    }
    Bfly(fout, beg, fs[0].radix, fstride, st.twiddles, fs[0].stride, probe.trace);
    own := [base + at + 1];
    CombinedAppend(cfg, v0, base, logIn, i, at);
    StepsNext(cfg, v0, at + 1);
    rv := probe.Check(env);
  }

  /**
   * The first half of `kf_work`: the frame's `p * m` slots at `beg` are
   * filled with its input samples (`m == 1`) or its sub-frames' outputs.
   * `at` is the call after the sub-frames' last; `log` is what the
   * sub-frames' butterflies appended to the trace.
   */
  method KfGather(fout: array<Cpx>, beg: nat, f: seq<Cpx>, fbeg: nat, fstride: nat, fs: seq<Factor>, st: State,
                  probe: PeriodicSignalCheck, env: Env, ghost v0: ProbeView, ghost base: nat, ghost i: nat)
    returns (rv: int, ghost at: nat, ghost log: seq<nat>)
    requires Chain(fs) && Fits(fs, f, fbeg, fstride, st.twiddles) && beg + Size(fs) <= fout.Length
    requires probe.View(env) == Steps(probe.Config(env), v0, i) && probe.trace.calls == base + i
    modifies fout, probe, env, probe.trace
    ensures var subs := if fs[0].stride == 1 then Run(i, 0) else Children(probe.Config(env), v0, fs, i, 0);
            rv == subs.rv && at == subs.next && probe.View(env) == Steps(probe.Config(env), v0, at)
    ensures probe.trace.calls == base + at && probe.trace.combined == old(probe.trace.combined) + log
    ensures i <= at && CombinedBefore(probe.Config(env), v0, base, log, i, at)
    ensures rv == 0 ==> |log| == (if fs[0].stride == 1 then 0 else fs[0].radix * Frames(fs[1..]))
    ensures rv == 0 ==> fout[beg..beg + Size(fs)] == Gathered(fs, f, fbeg, fstride, st.twiddles)
    ensures forall j :: 0 <= j < fout.Length && !(beg <= j < beg + Size(fs)) ==> fout[j] == old(fout[j])
    decreases |fs|, 2
  {
    if fs[0].stride == 1 {
      CopyDecimated(fout, beg, f, fbeg, fstride, fs[0].radix);
      rv, at, log := 0, i, [];
    } else {
      at := Children(probe.Config(env), v0, fs, i, 0).next;
      ChildrenStop(probe.Config(env), v0, fs, i, 0);
      rv, log := KfChildren(fout, beg, f, fbeg, fstride, fs, st, probe, env, v0, base, i);
    }
  }

  /**
   * One round of the sub-frame loop of `kf_work`: sub-frame `q`, entered
   * at call `i`, reads the samples `fi`, `fi + fstride * p`, ... and fills
   * the `m` slots at `out`, right after the first `q` sub-frames' outputs;
   * only those slots change. `next` is the call after the round's last:
   * the rounds left from `q` make the calls of the rounds left from
   * `q + 1` entered at `next`, or stop with this round's result. The
   * trace held `c0 + logIn` and holds `c0 + log`: `log` extends the
   * butterflies of the first `q` sub-frames by this round's.
   */
  method KfChild(fout: array<Cpx>, beg: nat, out: nat, f: seq<Cpx>, fbeg: nat, fi: nat, fstride: nat, fs: seq<Factor>, st: State,
                 probe: PeriodicSignalCheck, env: Env, ghost v0: ProbeView, ghost base: nat, ghost i: nat, ghost q: nat, ghost o: seq<Cpx>,
                 ghost i0: nat, ghost c0: seq<nat>, ghost logIn: seq<nat>)
    returns (rv: int, ghost next: nat, ghost log: seq<nat>)
    requires Round(fs, f, fbeg, fstride, st.twiddles, beg, fout.Length)
    requires q < fs[0].radix && fi == fbeg + q * fstride && out == beg + q * fs[0].stride
    requires probe.View(env) == Steps(probe.Config(env), v0, i) && probe.trace.calls == base + i
    requires fout[beg..out] == Subs(fs, f, fbeg, fstride, st.twiddles, q) && Untouched(fout[..], o, beg, out)
    requires SubLog(probe.Config(env), v0, fs, base, logIn, i0, i, q) && probe.trace.combined == c0 + logIn
    modifies fout, probe, env, probe.trace
    ensures probe.View(env) == Steps(probe.Config(env), v0, next) && probe.trace.calls == base + next
    ensures probe.trace.combined == c0 + log
    ensures i0 <= next && CombinedBefore(probe.Config(env), v0, base, log, i0, next)
    ensures rv == 0 ==> SubLog(probe.Config(env), v0, fs, base, log, i0, next, q + 1)
    ensures rv != 0 ==> Children(probe.Config(env), v0, fs, i, q) == Run(next, rv)
    ensures rv == 0 ==> Children(probe.Config(env), v0, fs, i, q) == Children(probe.Config(env), v0, fs, next, q + 1)
    ensures rv == 0 ==> fout[beg..out + fs[0].stride] == Subs(fs, f, fbeg, fstride, st.twiddles, q + 1)
    ensures Untouched(fout[..], o, beg, out + fs[0].stride)
    decreases |fs|, 0
  {
    ChildFits(fs, f, fbeg, fstride, st.twiddles, q);
    ghost var before := fout[..];
    next := Frame(probe.Config(env), v0, fs[1..], i).next;
    ghost var sub;
    rv, sub := KfWork(fout, out, f, fi, fstride * fs[0].radix, fs[1..], st, probe, env, v0, base, i);
    FrameStops(probe.Config(env), v0, fs[1..], i);
    CombinedJoin(probe.Config(env), v0, base, logIn, sub, i0, i, next);
    AppendAssoc(c0, logIn, sub);
    log := logIn + sub;
    MulSucc(q, Frames(fs[1..]));
    assert Size(fs[1..]) == fs[0].stride;
    assert Untouched(fout[..], before, out, out + fs[0].stride);
    UntouchedGrow(o, before, fout[..], beg, out, out + fs[0].stride);
    if rv == 0 {
      ChildWritten(before, fout[..], beg, out, fs, f, fbeg, fstride, st.twiddles, q, fi);
    }
  }

  /**
   * The sub-frame loop of `kf_work` for a stage with `m > 1`: sub-frame
   * `q` reads the samples `fbeg + q * fstride`, `fbeg + (q + p) * fstride`, ...
   * and fills slots `beg + q * m` to `beg + q * m + m - 1`; the loop stops
   * at the first sub-frame that returns non-zero.
   */
  method KfChildren(fout: array<Cpx>, beg: nat, f: seq<Cpx>, fbeg: nat, fstride: nat, fs: seq<Factor>, st: State,
                    probe: PeriodicSignalCheck, env: Env, ghost v0: ProbeView, ghost base: nat, ghost i: nat)
    returns (rv: int, ghost log: seq<nat>)
    requires Round(fs, f, fbeg, fstride, st.twiddles, beg, fout.Length)
    requires probe.View(env) == Steps(probe.Config(env), v0, i) && probe.trace.calls == base + i
    modifies fout, probe, env, probe.trace
    ensures var r := Children(probe.Config(env), v0, fs, i, 0);
            && rv == r.rv && probe.View(env) == Steps(probe.Config(env), v0, r.next)
            && probe.trace.calls == base + r.next
    ensures probe.trace.combined == old(probe.trace.combined) + log
    ensures rv == 0 ==> fout[beg..beg + Size(fs)] == Subs(fs, f, fbeg, fstride, st.twiddles, fs[0].radix)
    ensures CombinedBefore(probe.Config(env), v0, base, log, i, Children(probe.Config(env), v0, fs, i, 0).next)
    ensures rv == 0 ==> |log| == fs[0].radix * Frames(fs[1..])
    ensures forall j :: 0 <= j < fout.Length && !(beg <= j < beg + Size(fs)) ==> fout[j] == old(fout[j])
    decreases |fs|, 1
  {
    ghost var cfg, tw, c0 := probe.Config(env), st.twiddles, probe.trace.combined;
    var p, m := fs[0].radix, fs[0].stride;
    var q := 0;
    var fi := fbeg;
    var out := beg;
    ghost var at, o := i, fout[..];
    log := [];
    while q < p
      invariant 0 <= q <= p && fi == fbeg + q * fstride && out == beg + q * m && out <= beg + Size(fs)
      invariant Children(cfg, v0, fs, i, 0) == Children(cfg, v0, fs, at, q)
      invariant probe.View(env) == Steps(cfg, v0, at) && probe.trace.calls == base + at
      invariant fout[beg..out] == Subs(fs, f, fbeg, fstride, tw, q) && Untouched(fout[..], o, beg, out)
      invariant SubLog(cfg, v0, fs, base, log, i, at, q) && probe.trace.combined == c0 + log
    {
      MulSucc(q, m);
      MulLe(q + 1, p, m);
      rv, at, log := KfChild(fout, beg, out, f, fbeg, fi, fstride, fs, st, probe, env, v0, base, at, q, o, i, c0, log);
      if rv != 0 {
        return;
      }
      MulSucc(q, fstride);
      q, fi, out := q + 1, fi + fstride, out + m;
    }
    assert out == beg + Size(fs);
    rv := 0;
  }

  // ---------------------------------------------------------------------
  // kiss_fft and kiss_fft_alloc

  /**
   * The callback calls of a whole `kiss_fft` on a state of `n` samples,
   * counted from `v0` and entered at call `i`. For `n >= 2` this is the
   * top frame of `kf_work`. A single sample is handled as one frame with no
   * sub-frames and no butterfly (see `OneSampleHasNoStage`).
   */
  ghost function FftRun(cfg: ProbeConfig, v0: ProbeView, st: State, i: nat): Run
    requires st.Valid()
  {
    if st.n >= 2 then Frame(cfg, v0, st.factors, i)
    else if Answer(cfg, v0, i) != 0 then Run(i + 1, Answer(cfg, v0, i))
    else Run(i + 2, Answer(cfg, v0, i + 1))
  }

  /**
   * What a completed `kiss_fft` leaves in `fout`: the value the decimation
   * recursion of `kf_work` computes over the whole input (`Transform` of
   * the top frame), or the single sample itself.
   */
  function FftOutput(st: State, x: seq<Cpx>): (r: seq<Cpx>)
    requires st.Valid() && |x| == st.n
    ensures |r| == st.n
  {
    if st.n >= 2 then
      ChainSize(st);
      Transform(st.factors, x, 0, 1, st.twiddles)
    else x
  }

  lemma ChainSize(st: State)
    requires st.Valid() && st.n >= 2
    ensures Chain(st.factors) && Size(st.factors) == st.n
  {
  }

  /**
   * A whole transform stops at the first non-zero answer of the callback
   * and returns it; when every answer is 0 it returns 0. With a callback
   * that always answers 0, `n >= 2` samples cost exactly two calls per
   * frame of the recursion.
   */
  lemma {:induction false} FftRunStops(cfg: ProbeConfig, v0: ProbeView, st: State, i: nat)
    requires st.Valid()
    ensures var r := FftRun(cfg, v0, st, i);
            && i < r.next
            && (r.rv != 0 ==> StopsAtFirstNonZero(cfg, v0, i, r))
            && (r.rv == 0 ==> AllZero(cfg, v0, i, r.next))
    ensures Quiet(cfg) && st.n >= 2 ==> FftRun(cfg, v0, st, i) == Run(i + 2 * Frames(st.factors), 0)
    ensures Quiet(cfg) && st.n < 2 ==> FftRun(cfg, v0, st, i) == Run(i + 2, 0)
  {
    if st.n >= 2 {
      FrameStops(cfg, v0, st.factors, i);
      if Quiet(cfg) {
        QuietFrame(cfg, v0, st.factors, i);
      }
    } else if Quiet(cfg) {
      QuietAnswer(cfg, v0, i);
      QuietAnswer(cfg, v0, i + 1);
    }
  }

  /**
   * `kiss_fft`: the transform of `fin` into `fout` under the callback
   * `probe`, entered when its next call is call `i` counted from `v0`,
   * made when `probe.trace` has counted `base + i` calls; `log` is what the
   * butterflies appended to the trace. For a single sample the stage list
   * holds no stage; this model copies the sample and calls the callback as
   * for one frame, with no butterfly, where the source reads an unwritten
   * stage.
   */
  method KissFft(st: State, fin: seq<Cpx>, fout: array<Cpx>, probe: PeriodicSignalCheck, env: Env,
                 ghost v0: ProbeView, ghost base: nat, ghost i: nat)
    returns (rv: int, ghost log: seq<nat>)
    requires st.Valid() && |fin| == st.n && fout.Length == st.n
    requires probe.View(env) == Steps(probe.Config(env), v0, i) && probe.trace.calls == base + i
    modifies fout, probe, env, probe.trace
    ensures var r := FftRun(probe.Config(env), v0, st, i);
            && rv == r.rv && probe.View(env) == Steps(probe.Config(env), v0, r.next)
            && probe.trace.calls == base + r.next
    ensures probe.trace.combined == old(probe.trace.combined) + log
    ensures rv == 0 ==> fout[..] == FftOutput(st, fin)
    ensures CombinedBefore(probe.Config(env), v0, base, log, i, FftRun(probe.Config(env), v0, st, i).next)
    ensures rv == 0 ==> |log| == (if st.n >= 2 then Frames(st.factors) else 0)
  {
    ghost var cfg := probe.Config(env);
    if st.n >= 2 {
      ChainSize(st);
      rv, log := KfWork(fout, 0, fin, 0, 1, st.factors, st, probe, env, v0, base, i);
      assert fout[..] == fout[0..Size(st.factors)];
    } else {
      fout[0] := fin[0];
      assert fout[..] == fin;
      StepsNext(cfg, v0, i);
      log := [];
      rv := probe.Check(env);
      if rv != 0 {
        return;
      }
      StepsNext(cfg, v0, i + 1);
      rv := probe.Check(env);
    }
  }

  /** The outcome of `kiss_fft_alloc`: a null pointer, the `(kiss_fft_state *)-1` marker, or a filled state. */
  datatype AllocResult = NoMemory | NotPowerOfTwo | Allocated(st: State)

  /**
   * The state `kiss_fft_alloc` builds for `n` samples: the stage plan
   * followed by the block's untouched slots (`junk`), and the twiddles.
   */
  ghost function Allocation(n: u32, junk: Factor, cis: (nat, nat) -> Cpx): (st: State)
    requires n > 0
    ensures IsPowerOfTwo(n) ==> st.Valid()
  {
    PlanFits(n);
    var st := State(n, Plan(n) + seq(MAXFACTORS - |Plan(n)|, _ => junk), seq(n - 1, j requires 0 <= j => cis(j, n)));
    assert st.factors[..|Plan(n)|] == Plan(n);
    if IsPowerOfTwo(n) then AllocatedValid(n, st.factors, st.twiddles); st else st
  }

  /** The stage list `kf_factor` writes into a fresh block, whatever the rest of the block holds, with `n - 1` twiddles, is a valid state. */
  lemma AllocatedValid(n: nat, factors: seq<Factor>, twiddles: seq<Cpx>)
    requires IsPowerOfTwo(n) && |factors| == MAXFACTORS && |Plan(n)| <= MAXFACTORS
    requires factors[..|Plan(n)|] == Plan(n) && |twiddles| + 1 == n
    ensures State(n, factors, twiddles).Valid()
  {
    if n >= 2 {
      assert factors == Plan(n) + factors[|Plan(n)|..];
      PlanIsChain(n);
      ChainExtends(Plan(n), factors[|Plan(n)|..]);
    }
  }

  /**
   * A block whose first slots hold the plan and whose other slots were left
   * alone, with the twiddles `cis(j, n)`, is the allocated state.
   */
  lemma AllocationIs(n: u32, junk: Factor, cis: (nat, nat) -> Cpx, block: seq<Factor>, tw: seq<Cpx>)
    requires n > 0 && |block| == MAXFACTORS && |Plan(n)| <= MAXFACTORS
    requires forall j :: 0 <= j < |Plan(n)| ==> block[j] == Plan(n)[j]
    requires forall j :: |Plan(n)| <= j < MAXFACTORS ==> block[j] == junk
    requires |tw| + 1 == n && forall j :: 0 <= j < |tw| ==> tw[j] == cis(j, n)
    ensures State(n, block, tw) == Allocation(n, junk, cis)
  {
    var st := Allocation(n, junk, cis);
    assert block == st.factors;
    assert tw == st.twiddles;
  }

  /**
   * `kiss_fft_alloc`. Whether `malloc` succeeds is `mallocOk`; the fresh
   * block's stage slots hold `junk`. `cis(i, n)` stands for the `float`
   * pair `cosf`/`sinf` of the phase `-2 pi i / n`.
   */
  method KissFftAlloc(samples: u32, mallocOk: bool, junk: Factor, cis: (nat, nat) -> Cpx) returns (res: AllocResult)
    ensures res.NoMemory? <==> !mallocOk
    ensures mallocOk ==> (res.Allocated? <==> IsPowerOfTwo(samples))
    ensures res.Allocated? ==> res.st == Allocation(samples, junk, cis)
  {
    if !mallocOk {
      return NoMemory;
    }
    var facbuf := new Factor[MAXFACTORS](_ => junk);
    var ok := KfFactor(samples, facbuf);
    if !ok {
      return NotPowerOfTwo;
    }
    var factors := facbuf[..];
    var tw := new Cpx[samples - 1];
    for i := 0 to samples - 1
      invariant forall j :: 0 <= j < i ==> tw[j] == cis(j, samples)
    {
      tw[i] := cis(i, samples);
    }
    AllocationIs(samples, junk, cis, factors, tw[..]);
    res := Allocated(State(samples, factors, tw[..]));
  }
}
