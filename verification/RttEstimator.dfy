/** Rtt: exponential smoothing of round-trip times in a shared snapshot, over the reals. */
module RttEstimator {
  import opened Floats
  import opened Cas

  const COEFFICIENT_A := 0.125
  const MAX_PING := 500.0

  datatype Metrics = Metrics(rttOld: real, rttNew: real, rttSmoothed: real, rttCoefficient: real)

  /** Update takes a sample; UpdateRttOld seeds the estimate. */
  datatype Call = Update(v: Float) | UpdateRttOld(v: Float)

  /** isValidRtt: f >= 0, which is false for NaN. */
  predicate IsValidRtt(f: Float) {
    f.Finite? && f.r >= 0.0
  }

  function Value(c: Call): real {
    if c.v.Finite? then c.v.r else 0.0
  }

  /** The estimate an update starts from: the smoothed one, or the seed while that is zero. */
  function Basis(s: Metrics): real {
    if s.rttSmoothed == 0.0 then s.rttOld else s.rttSmoothed
  }

  function Smoothed(was: real, sample: real): real {
    (1.0 - COEFFICIENT_A) * was + COEFFICIENT_A * sample
  }

  function Clamped(c: real): real {
    if c > 1.0 then 1.0 else if c < 0.0 then 0.0 else c
  }

  function Apply(s: Metrics, c: Call): Outcome<Metrics> {
    match c
    case UpdateRttOld(_) => Becomes(s.(rttOld := Value(c)))
    case Update(_) =>
      var smoothed := Smoothed(Basis(s), Value(c));
      Becomes(Metrics(Basis(s), Value(c), smoothed, Clamped(smoothed / MAX_PING)))
  }

  function Rtt(): Object<Metrics, Call> {
    Object(Metrics(0.0, 0.0, 0.0, 0.0), (c: Call) => IsValidRtt(c.v), Apply, c => false)
  }

  /** Smoothing yields a convex combination. */
  lemma Between(was: real, sample: real, lo: real, hi: real)
    requires lo <= was <= hi && lo <= sample <= hi
    ensures lo <= Smoothed(was, sample) <= hi
  {
  }

  /** The largest value of any call, 0 when there is none. */
  function Largest(ops: seq<Call>): (m: real)
    ensures m >= 0.0 && forall c :: c in ops ==> Value(c) <= m
  {
    if ops == [] then 0.0
    else
      var m := Largest(ops[..|ops| - 1]);
      if Value(ops[|ops| - 1]) > m then Value(ops[|ops| - 1]) else m
  }

  predicate HasSample(ops: seq<Call>) {
    exists c :: c in ops && c.Update?
  }

  /**
   Everything stays between 0 and the largest accepted sample or seed. The coefficient is the
   smoothed time over the largest ping, cut off at 1; its cut-off at 0 is never reached.
   */
  predicate Bounded(s: Metrics, hi: real) {
    && 0.0 <= s.rttOld <= hi && 0.0 <= s.rttNew <= hi && 0.0 <= s.rttSmoothed <= hi
    && s.rttCoefficient == (if s.rttSmoothed > MAX_PING then 1.0 else s.rttSmoothed / MAX_PING)
    && 0.0 <= s.rttCoefficient <= 1.0
  }

  lemma BoundedByMore(s: Metrics, hi: real, hi': real)
    requires Bounded(s, hi) && hi <= hi'
    ensures Bounded(s, hi')
  {
  }

  lemma {:induction false} StaysBounded(ops: seq<Call>)
    requires Replays(Rtt(), ops)
    ensures Bounded(Sequentially(Rtt(), ops), Largest(ops))
  {
    if ops != [] {
      var prefix, c := ops[..|ops| - 1], ops[|ops| - 1];
      StaysBounded(prefix);
      var s := Sequentially(Rtt(), prefix);
      BoundedByMore(s, Largest(prefix), Largest(ops));
      Between(Basis(s), Value(c), 0.0, Largest(ops));
    }
  }

  /** The state once the first call has seeded the estimate with at least lo > 0, and all calls were at least lo. */
  predicate AtLeast(s: Metrics, lo: real, sampled: bool) {
    if sampled then s.rttSmoothed >= lo else s.rttSmoothed == 0.0 && s.rttOld >= lo
  }

  /** A seeded estimate never falls below the smallest sample or seed. */
  lemma {:induction false} SeededStaysAbove(ops: seq<Call>, lo: real)
    requires Replays(Rtt(), ops) && lo > 0.0 && ops != [] && ops[0].UpdateRttOld?
    requires forall c :: c in ops ==> Value(c) >= lo
    ensures AtLeast(Sequentially(Rtt(), ops), lo, HasSample(ops))
  {
    var prefix, c := ops[..|ops| - 1], ops[|ops| - 1];
    assert ops == prefix + [c];
    if prefix == [] {
      assert Sequentially(Rtt(), prefix) == Rtt().init;
      assert !HasSample(ops);
    } else {
      assert prefix[0] == ops[0];
      SeededStaysAbove(prefix, lo);
      assert c in ops;
      assert HasSample(ops) == (HasSample(prefix) || c.Update?);
      if c.Update? {
        var s := Sequentially(Rtt(), prefix);
        Between(Basis(s), Value(c), lo, if Basis(s) > Value(c) then Basis(s) else Value(c));
      }
    }
  }

  // ---- the estimate in closed form ----------------------------------------------------

  /** (7/8)^n, the weight left to what came n samples ago. */
  function Fading(n: nat): real {
    if n == 0 then 1.0 else 0.875 * Fading(n - 1)
  }

  /** Each sample weighs one eighth, fading by every sample after it. */
  function Weighted(samples: seq<real>): real {
    if samples == [] then 0.0 else 0.125 * Fading(|samples| - 1) * samples[0] + Weighted(samples[1..])
  }

  lemma {:induction false} WeightedNext(samples: seq<real>, x: real)
    ensures Weighted(samples + [x]) == 0.875 * Weighted(samples) + 0.125 * x
  {
    if samples == [] {
      assert ([] + [x])[1..] == [];
      assert Weighted([x]) == 0.125 * Fading(0) * x + Weighted([]);
    } else {
      assert (samples + [x])[1..] == samples[1..] + [x];
      WeightedNext(samples[1..], x);
      FadingTimes(|samples| - 1, samples[0]);
    }
  }

  lemma FadingTimes(n: nat, x: real)
    ensures 0.125 * Fading(n + 1) * x == 0.875 * (0.125 * Fading(n) * x)
  {
  }

  /** The value of the last seed, 0 before the first. */
  function LastSeed(ops: seq<Call>): real {
    if ops == [] then 0.0
    else match ops[|ops| - 1]
         case UpdateRttOld(_) => Value(ops[|ops| - 1])
         case Update(_) => LastSeed(ops[..|ops| - 1])
  }

  /** The value of the last sample, 0 before the first. */
  function LastSample(ops: seq<Call>): real {
    if ops == [] then 0.0
    else match ops[|ops| - 1]
         case UpdateRttOld(_) => LastSample(ops[..|ops| - 1])
         case Update(_) => Value(ops[|ops| - 1])
  }

  /** A history by the first sample that makes the estimate positive: its seed, and the samples from there on. */
  datatype Course = Zero | Positive(seed: real, samples: seq<real>)

  function CourseOf(ops: seq<Call>): Course {
    if ops == [] then Zero
    else
      var prefix, c := ops[..|ops| - 1], ops[|ops| - 1];
      if c.UpdateRttOld? then CourseOf(prefix)
      else match CourseOf(prefix)
           case Positive(seed, samples) => Positive(seed, samples + [Value(c)])
           case Zero =>
             if LastSeed(prefix) > 0.0 || Value(c) > 0.0 then Positive(LastSeed(prefix), [Value(c)]) else Zero
  }

  /** The estimate of a course: the seed and every sample by weight. */
  function Estimate(course: Course): real {
    match course
    case Zero => 0.0
    case Positive(seed, samples) => Fading(|samples|) * seed + Weighted(samples)
  }

  /** All four fields, in terms of the calls that took effect. */
  predicate InClosedForm(s: Metrics, ops: seq<Call>) {
    var e := Estimate(CourseOf(ops));
    && s.rttSmoothed == e && (e > 0.0 <==> CourseOf(ops).Positive?) && e >= 0.0
    && s.rttCoefficient == (if e > 500.0 then 1.0 else e / 500.0)
    && s.rttNew == LastSample(ops)
    && s.rttOld == Before(ops)
  }

  /** What a sample started from, or the seed that replaced it: the estimate, or the last seed while that is 0. */
  function Before(ops: seq<Call>): real {
    if ops == [] then 0.0
    else match ops[|ops| - 1]
         case UpdateRttOld(_) => Value(ops[|ops| - 1])
         case Update(_) =>
           match CourseOf(ops[..|ops| - 1])
           case Positive(_, _) => Estimate(CourseOf(ops[..|ops| - 1]))
           case Zero => LastSeed(ops[..|ops| - 1])
  }

  lemma FadingStep(n: nat, seed: real)
    ensures Fading(n + 1) * seed == 0.875 * (Fading(n) * seed)
  {
  }

  /** While the estimate is zero, what is kept of the past is the last seed. */
  lemma {:induction false} ZeroBefore(ops: seq<Call>)
    requires CourseOf(ops).Zero? && forall c :: c in ops ==> Value(c) >= 0.0
    ensures Before(ops) == LastSeed(ops)
  {
    if ops != [] {
      ZeroBefore(ops[..|ops| - 1]);
    }
  }

  lemma {:induction false} Accepted(ops: seq<Call>)
    requires Replays(Rtt(), ops)
    ensures forall c :: c in ops ==> Value(c) >= 0.0
  {
    if ops != [] {
      Accepted(ops[..|ops| - 1]);
    }
  }

  lemma {:induction false} SeedNonneg(ops: seq<Call>)
    requires forall c :: c in ops ==> Value(c) >= 0.0
    ensures LastSeed(ops) >= 0.0
  {
    if ops != [] {
      SeedNonneg(ops[..|ops| - 1]);
    }
  }

  lemma FirstSample(seed: real, x: real)
    ensures Estimate(Positive(seed, [x])) == 0.875 * seed + 0.125 * x
  {
    WeightedNext([], x);
    FadingStep(0, seed);
    assert [] + [x] == [x];
  }

  /** A sample on top of a positive estimate. */
  lemma NextSample(seed: real, samples: seq<real>, x: real)
    ensures Estimate(Positive(seed, samples + [x])) == 0.875 * Estimate(Positive(seed, samples)) + 0.125 * x
  {
    WeightedNext(samples, x);
    FadingStep(|samples|, seed);
  }

  /** What one more call that takes effect makes of the course. */
  lemma CourseNext(prefix: seq<Call>, c: Call)
    ensures LastSeed(prefix + [c]) == if c.UpdateRttOld? then Value(c) else LastSeed(prefix)
    ensures LastSample(prefix + [c]) == if c.Update? then Value(c) else LastSample(prefix)
    ensures CourseOf(prefix + [c])
         == if c.UpdateRttOld? then CourseOf(prefix)
            else match CourseOf(prefix)
                 case Positive(seed, samples) => Positive(seed, samples + [Value(c)])
                 case Zero =>
                   if LastSeed(prefix) > 0.0 || Value(c) > 0.0 then Positive(LastSeed(prefix), [Value(c)]) else Zero
    ensures Before(prefix + [c])
         == if c.UpdateRttOld? then Value(c)
            else match CourseOf(prefix)
                 case Positive(_, _) => Estimate(CourseOf(prefix))
                 case Zero => LastSeed(prefix)
  {
  }

  lemma StepInClosedForm(s: Metrics, prefix: seq<Call>, c: Call)
    requires InClosedForm(s, prefix) && Value(c) >= 0.0 && LastSeed(prefix) >= 0.0
    requires CourseOf(prefix).Zero? ==> Before(prefix) == LastSeed(prefix)
    ensures InClosedForm(Apply(s, c).next, prefix + [c])
  {
    hide CourseOf, LastSeed, LastSample, Before, Fading, Weighted;
    CourseNext(prefix, c);
    if c.Update? {
      match CourseOf(prefix)
      case Positive(seed, samples) =>
        NextSample(seed, samples, Value(c));
      case Zero =>
        FirstSample(LastSeed(prefix), Value(c));
    }
  }

  lemma {:induction false} ClosedForm(ops: seq<Call>)
    requires Replays(Rtt(), ops)
    ensures InClosedForm(Sequentially(Rtt(), ops), ops)
  {
    hide *;
    if ops == [] {
      NothingYet();
    } else {
      var prefix, c := ops[..|ops| - 1], ops[|ops| - 1];
      LastCall(ops);
      ClosedForm(prefix);
      Accepted(prefix);
      assert ops == prefix + [c];
      SeedNonneg(prefix);
      if CourseOf(prefix).Zero? {
        ZeroBefore(prefix);
      }
      StepInClosedForm(Sequentially(Rtt(), prefix), prefix, c);
    }
  }

  lemma NothingYet()
    ensures InClosedForm(Sequentially(Rtt(), []), [])
  {
  }

  lemma LastCall(ops: seq<Call>)
    requires ops != [] && Replays(Rtt(), ops)
    ensures var prefix, c := ops[..|ops| - 1], ops[|ops| - 1];
            && Replays(Rtt(), prefix) && Value(c) >= 0.0 && Apply(Sequentially(Rtt(), prefix), c).Becomes?
            && Sequentially(Rtt(), ops) == Apply(Sequentially(Rtt(), prefix), c).next
  {
  }

  /**
   At any point of any interleaving of updates and seeds every field is determined by the calls
   that took effect: the estimate weighs each sample one eighth and what came before it seven
   eighths, from the seed that stood when it first became positive.
   */
  lemma EstimateExact(n: nat, ws: seq<World<Metrics, Call>>, i: nat)
    requires IsRun(Rtt(), n, ws) && i < |ws|
    ensures var w := ws[i]; w.cell < |w.heap| && InClosedForm(w.heap[w.cell], Effects(w.trace))
  {
    hide IsRun, InClosedForm;
    Published(Rtt(), n, ws, i);
    ClosedForm(Effects(ws[i].trace));
  }

  /** A sample or a seed is taken exactly when it is finite and not negative. */
  lemma UpdateReturns(n: nat, ws: seq<World<Metrics, Call>>, i: nat, e: nat)
    requires IsRun(Rtt(), n, ws) && i < |ws| && e < |ws[i].trace| && ws[i].trace[e].Return?
    ensures ws[i].trace[e].ok <==> ws[i].trace[e].op.v.Finite? && ws[i].trace[e].op.v.r >= 0.0
  {
    hide IsRun;
    ReturnsAccepted(Rtt(), n, ws, i, e);
  }

  /** At any point of any interleaving of updates and seeds, the published estimate is bounded by what was committed. */
  lemma EstimateIs(n: nat, ws: seq<World<Metrics, Call>>, i: nat)
    requires IsRun(Rtt(), n, ws) && i < |ws|
    ensures var w := ws[i];
            && w.cell < |w.heap|
            && Bounded(w.heap[w.cell], Largest(Effects(w.trace)))
  {
    hide IsRun;
    Published(Rtt(), n, ws, i);
    StaysBounded(Effects(ws[i].trace));
  }

  lemma SeededEstimateIs(n: nat, ws: seq<World<Metrics, Call>>, i: nat, lo: real)
    requires IsRun(Rtt(), n, ws) && i < |ws| && lo > 0.0
    requires var ops := Effects(ws[i].trace);
             ops != [] && ops[0].UpdateRttOld? && HasSample(ops) && forall c :: c in ops ==> Value(c) >= lo
    ensures var w := ws[i]; w.cell < |w.heap| && lo <= w.heap[w.cell].rttSmoothed <= Largest(Effects(w.trace))
  {
    hide IsRun;
    Published(Rtt(), n, ws, i);
    StaysBounded(Effects(ws[i].trace));
    SeededStaysAbove(Effects(ws[i].trace), lo);
  }
}
