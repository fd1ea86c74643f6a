/** The proportional-integral servo of `pi.c`, over the real numbers, with the bookkeeping of `servo.c`
  around it.
 */
module PiServo {
  import opened Prelude

  datatype State = Unlocked | Jump | Locked | LockedStable

  // What the configuration fixes.  A threshold of zero is not in use.
  datatype Limits = Limits(maxFrequency: real, stepThreshold: real, firstStepThreshold: real)

  datatype Pi = Pi(offset0: int, offset1: int, local0: int, local1: int, drift: real, kp: real, ki: real,
                   lastFreq: real, count: nat, firstUpdate: bool)

  const ONE_BILLION := 1_000_000_000.0

  function Clamp(x: real, bound: real): real {
    if x < -bound then -bound else if x > bound then bound else x
  }

  function Abs(x: int): nat {
    if x < 0 then -x else x
  }

  // How long to wait before the frequency is estimated, in seconds.
  function EstimationInterval(ki: real): real
    requires ki >= 0.0
  {
    if ki == 0.0 || 0.016 / ki > 1000.0 then 1000.0 else 0.016 / ki
  }

  predicate Over(threshold: real, offset: int) {
    threshold != 0.0 && threshold < Abs(offset) as real
  }

  // Whether the two samples are far enough apart.
  predicate LongEnough(local0: int, local1: int, ki: real)
    requires ki >= 0.0
  {
    var diff := (local1 - local0) as real / ONE_BILLION;
    diff + diff * 0.001 >= EstimationInterval(ki)
  }

  // The drift after the frequency offset between two samples has been measured.
  function Measured(drift: real, offsets: int, locals: int): real
    requires locals > 0
  {
    drift + (ONE_BILLION - drift) * offsets as real / locals as real
  }

  // A term of the controller
  function Term(gain: real, offset: int, weight: real): real {
    gain * offset as real * weight
  }

  // pi_sample: the new servo, and the state it reports; the frequency it returns is `lastFreq`.
  function PiSample(s: Pi, lim: Limits, offset: int, local: int, weight: real): (r: (Pi, State))
    requires s.ki >= 0.0
  {
    if s.count == 0 then (s.(offset0 := offset, local0 := local, count := 1), Unlocked)
    else if s.count == 1 then
      var t := s.(offset1 := offset, local1 := local);
      if s.local0 >= local then (t.(count := 0), Unlocked)
      else if !LongEnough(s.local0, local, s.ki) then (t, Unlocked)
      else
        var drift := Clamp(Measured(s.drift, offset - s.offset0, local - s.local0), lim.maxFrequency);
        var jump := (s.firstUpdate && Over(lim.firstStepThreshold, offset)) || Over(lim.stepThreshold, offset);
        (t.(drift := drift, lastFreq := drift, count := 2), if jump then Jump else Locked)
    else if Over(lim.stepThreshold, offset) then (s.(count := 0), Unlocked)
    else
      var kiTerm := Term(s.ki, offset, weight);
      var ppb := Term(s.kp, offset, weight) + s.drift + kiTerm;
      var clamped := Clamp(ppb, lim.maxFrequency);
      (s.(lastFreq := clamped, drift := if clamped == ppb then s.drift + kiTerm else s.drift), Locked)
  }

  // ---- bounds, over every run ----

  // What the servo is given.  The gains that a new sync interval brings are not computed here.
  datatype Input = Sample(offset: int, local: int, weight: real) | Reset | Gains(kp: real, ki: real)

  predicate Proper(i: Input) {
    match i
    case Sample(_, _, weight) => weight >= 0.0
    case Reset => true
    case Gains(kp, ki) => kp >= 0.0 && ki >= 0.0
  }

  // The new servo, and whether it has measured or adjusted the frequency.
  function Step(s: Pi, lim: Limits, i: Input): (r: (Pi, bool))
    requires s.kp >= 0.0 && s.ki >= 0.0 && Proper(i)
    ensures r.0.kp >= 0.0 && r.0.ki >= 0.0
  {
    match i
    case Sample(offset, local, weight) =>
      var r := PiSample(s, lim, offset, local, weight);
      if r.1 == Unlocked then (r.0, false) else (r.0.(firstUpdate := false), true)
    case Reset => (s.(count := 0), false)
    case Gains(kp, ki) => (s.(kp := kp, ki := ki), false)
  }

  ghost predicate AllProper(log: seq<Input>) {
    forall i :: 0 <= i < |log| ==> Proper(log[i])
  }

  // The servo after a run, and whether the run has locked it.
  function Run(s: Pi, lim: Limits, log: seq<Input>): (r: (Pi, bool))
    requires s.kp >= 0.0 && s.ki >= 0.0 && AllProper(log)
    ensures r.0.kp >= 0.0 && r.0.ki >= 0.0
  {
    if log == [] then (s, false)
    else
      var p := Run(s, lim, log[..|log| - 1]);
      var q := Step(p.0, lim, log[|log| - 1]);
      (q.0, p.1 || q.1)
  }

  lemma SampleIsStep(s: Pi, lim: Limits, offset: int, local: int, weight: real)
    requires s.kp >= 0.0 && s.ki >= 0.0 && weight >= 0.0
    ensures var (r, state) := PiSample(s, lim, offset, local, weight);
            && state != LockedStable && r.firstUpdate == s.firstUpdate && r.kp == s.kp && r.ki == s.ki
            && Step(s, lim, Sample(offset, local, weight)).0 == if state == Unlocked then r
                else r.(firstUpdate := false)
  {
    hide Clamp, Measured, LongEnough;
  }

  // A servo as it is created for a clock that is adjusted by `fadj`.
  function Created(fadj: real): Pi {
    Pi(0, 0, 0, 0, fadj, 0.0, 0.0, fadj, 0, true)
  }

  predicate Bounded(s: Pi, lim: Limits) {
    && -lim.maxFrequency <= s.drift <= lim.maxFrequency
    && -lim.maxFrequency <= s.lastFreq <= lim.maxFrequency
  }

  lemma ClampBounds(x: real, bound: real)
    requires bound >= 0.0
    ensures -bound <= Clamp(x, bound) <= bound
    ensures Clamp(x, bound) == x <==> -bound <= x <= bound
  {
  }

  lemma SameSign(kp: real, ki: real, offset: real, weight: real)
    requires kp >= 0.0 && ki >= 0.0 && weight >= 0.0
    ensures offset >= 0.0 ==> kp * offset * weight >= 0.0 && ki * offset * weight >= 0.0
    ensures offset <= 0.0 ==> kp * offset * weight <= 0.0 && ki * offset * weight <= 0.0
  {
    if offset >= 0.0 {
      NotNegative(kp, offset);
      NotNegative(ki, offset);
      NotNegative(kp * offset, weight);
      NotNegative(ki * offset, weight);
    } else {
      NotNegative(kp, -offset);
      NotNegative(ki, -offset);
      assert kp * -offset == -(kp * offset) && ki * -offset == -(ki * offset);
      NotNegative(-(kp * offset), weight);
      NotNegative(-(ki * offset), weight);
      assert -(kp * offset) * weight == -(kp * offset * weight);
      assert -(ki * offset) * weight == -(ki * offset * weight);
    }
  }

  lemma NotNegative(a: real, b: real)
    requires a >= 0.0 && b >= 0.0
    ensures a * b >= 0.0
  {
  }

  // The integral update that is not clamped keeps the bound: the proportional and the integral term pull
  // in the same direction.
  lemma IntegralStaysBounded(drift: real, proportional: real, integral: real, bound: real)
    requires -bound <= drift <= bound && -bound <= proportional + drift + integral <= bound
    requires (proportional >= 0.0 && integral >= 0.0) || (proportional <= 0.0 && integral <= 0.0)
    ensures -bound <= drift + integral <= bound
  {
  }

  lemma SampleBounds(s: Pi, lim: Limits, offset: int, local: int, weight: real)
    requires s.kp >= 0.0 && s.ki >= 0.0 && weight >= 0.0 && lim.maxFrequency >= 0.0 && s.count <= 2
    requires s.count == 2 ==> Bounded(s, lim)
    ensures var (r, state) := PiSample(s, lim, offset, local, weight);
            && r.count <= 2 && (r.count == 2 ==> Bounded(r, lim))
            && (state == Unlocked ==> r.drift == s.drift && r.lastFreq == s.lastFreq)
            && (state != Unlocked ==> Bounded(r, lim))
  {
    if s.count == 2 {
      hide LongEnough, Measured;
      var p, i := Term(s.kp, offset, weight), Term(s.ki, offset, weight);
      SameSign(s.kp, s.ki, offset as real, weight);
      hide Term, Clamp;
      var ppb := p + s.drift + i;
      ClampBounds(ppb, lim.maxFrequency);
      if Clamp(ppb, lim.maxFrequency) == ppb {
        IntegralStaysBounded(s.drift, p, i, lim.maxFrequency);
      }
    } else if s.count == 1 && s.local0 < local {
      ClampBounds(Measured(s.drift, offset - s.offset0, local - s.local0), lim.maxFrequency);
      hide Measured, LongEnough;
    }
  }

  // In every run from the creation on, drift and frequency are what they were, until the servo locks;
  // from then on they are within the limits of the clock, through resets and new gains.
  lemma {:induction false} BoundedOnceLocked(fadj: real, lim: Limits, log: seq<Input>)
    requires AllProper(log) && lim.maxFrequency >= 0.0
    ensures var (r, locked) := Run(Created(fadj), lim, log);
            && r.count <= 2 && (r.count == 2 ==> Bounded(r, lim))
            && (!locked ==> r.drift == r.lastFreq == fadj)
            && (Bounded(r, lim) <==> locked || -lim.maxFrequency <= fadj <= lim.maxFrequency)
  {
    if log != [] {
      hide PiSample, Bounded;
      BoundedOnceLocked(fadj, lim, log[..|log| - 1]);
      StepBounds(Run(Created(fadj), lim, log[..|log| - 1]).0, lim, log[|log| - 1]);
      var r := Run(Created(fadj), lim, log).0;
      BoundedIs(r, lim, fadj);
    } else {
      BoundedIs(Created(fadj), lim, fadj);
    }
  }

  lemma BoundedIs(r: Pi, lim: Limits, fadj: real)
    ensures r.drift == r.lastFreq == fadj ==> (Bounded(r, lim) <==> -lim.maxFrequency <= fadj <= lim.maxFrequency)
  {
  }

  lemma StepBounds(s: Pi, lim: Limits, i: Input)
    requires s.kp >= 0.0 && s.ki >= 0.0 && Proper(i) && lim.maxFrequency >= 0.0 && s.count <= 2
    requires s.count == 2 ==> Bounded(s, lim)
    ensures var (r, locked) := Step(s, lim, i);
            && r.count <= 2 && (r.count == 2 ==> Bounded(r, lim))
            && (!locked ==> r.drift == s.drift && r.lastFreq == s.lastFreq && (Bounded(r, lim) <==> Bounded(s, lim)))
            && (locked ==> Bounded(r, lim))
  {
    if i.Sample? {
      SampleBounds(s, lim, i.offset, i.local, i.weight);
      hide PiSample;
    }
  }

  // ---- what the servo reports ----

  // The offset is farther from zero than a threshold that is in use.
  ghost predicate FarOff(threshold: real, offset: int) {
    threshold != 0.0 && (offset as real > threshold || -offset as real > threshold)
  }

  // The second sample is later than the first by 1000 s, or by enough for the integral gain, counting a margin of
  // one in a thousand; `ki` times the wait has to reach 0.016 then.
  ghost predicate Waited(s: Pi, local: int) {
    var ns := (local - s.local0) as real * 1.001;
    s.local0 < local && (ns >= 1000.0 * ONE_BILLION || s.ki * ns >= 0.016 * ONE_BILLION)
  }

  lemma LongEnoughIsWaited(s: Pi, local: int)
    requires s.ki >= 0.0 && s.local0 < local
    ensures LongEnough(s.local0, local, s.ki) <==> Waited(s, local)
  {
    var d := (local - s.local0) as real;
    var diff := d / ONE_BILLION;
    assert diff * ONE_BILLION == d;
    var ns := d * 1.001;
    var x := diff + diff * 0.001;
    assert x * ONE_BILLION == ns;
    if s.ki > 0.0 {
      QuotientReached(0.016, s.ki, x);
      assert s.ki * ns == s.ki * x * ONE_BILLION by {
        Regroup(s.ki, x, ns);
      }
    }
  }

  lemma Regroup(a: real, x: real, ns: real)
    requires x * ONE_BILLION == ns
    ensures a * ns == a * x * ONE_BILLION
  {
  }

  lemma QuotientReached(a: real, b: real, x: real)
    requires b > 0.0
    ensures x >= a / b <==> b * x >= a
  {
    var q := a / b;
    assert q * b == a;
    if x >= q {
      NotNegative(x - q, b);
      assert (x - q) * b == b * x - a;
    } else {
      Positive(q - x, b);
      assert (q - x) * b == a - b * x;
    }
  }

  lemma Positive(a: real, b: real)
    requires a > 0.0 && b > 0.0
    ensures a * b > 0.0
  {
  }

  // A jump is asked for exactly when the first measurement after a start, or after a reset, finds the clock too far
  // off: farther than the step threshold, or, before the first update, than that for the first step.
  lemma JumpIff(s: Pi, lim: Limits, offset: int, local: int, weight: real)
    requires s.ki >= 0.0
    ensures PiSample(s, lim, offset, local, weight).1 == Jump <==>
            && s.count == 1 && Waited(s, local)
            && (FarOff(lim.stepThreshold, offset) || (s.firstUpdate && FarOff(lim.firstStepThreshold, offset)))
  {
    if s.count == 1 && s.local0 < local {
      LongEnoughIsWaited(s, local);
    }
    hide LongEnough, Measured, Clamp, Term;
  }

  // It does not adjust anything until two samples are far enough apart, and it gives up its lock exactly when an
  // offset is farther than the step threshold.
  lemma UnlockedIff(s: Pi, lim: Limits, offset: int, local: int, weight: real)
    requires s.ki >= 0.0 && s.count <= 2
    ensures PiSample(s, lim, offset, local, weight).1 == Unlocked <==>
            match s.count
            case 0 => true
            case 1 => !Waited(s, local)
            case _ => FarOff(lim.stepThreshold, offset)
  {
    if s.count == 1 && s.local0 < local {
      LongEnoughIsWaited(s, local);
    }
    hide LongEnough, Measured, Clamp, Term;
  }

  // ---- what the measurement means ----

  // Between the two samples the reference advanced by `reference` and the local clock, adjusted by
  // `drift`, by `locals`: after the measurement the local clock would have advanced by as much as the
  // reference.
  lemma MeasurementIsExact(drift: real, reference: int, locals: int)
    requires locals > 0
    ensures (ONE_BILLION - Measured(drift, locals - reference, locals)) * locals as real
            == (ONE_BILLION - drift) * reference as real
  {
    var x, l := ONE_BILLION - drift, locals as real;
    var q := x * (locals - reference) as real / l;
    assert q * l == x * (locals - reference) as real;
    assert (locals - reference) as real == l - reference as real;
    assert x * (l - reference as real) == x * l - x * reference as real;
    assert ONE_BILLION - Measured(drift, locals - reference, locals) == x - q;
    assert (x - q) * l == x * l - q * l;
  }

  // So it is for the servo: when it has measured and no limit is in the way, its clock will advance as the reference
  // did from the first of the two samples to the second.
  lemma FirstLockIsExact(s: Pi, lim: Limits, offset: int, local: int, weight: real)
    requires s.ki >= 0.0 && s.count == 1 && PiSample(s, lim, offset, local, weight).1 != Unlocked
    ensures var r := PiSample(s, lim, offset, local, weight).0;
            var reference := (local - offset) - (s.local0 - s.offset0);
            && r.count == 2 && r.lastFreq == r.drift && local > s.local0
            && (-lim.maxFrequency < r.drift < lim.maxFrequency ==>
                  (ONE_BILLION - r.drift) * (local - s.local0) as real == (ONE_BILLION - s.drift) * reference as real)
  {
    var locals := local - s.local0;
    if locals > 0 {
      var reference := (local - offset) - (s.local0 - s.offset0);
      assert locals - reference == offset - s.offset0;
      MeasurementIsExact(s.drift, reference, locals);
    }
    hide Measured, LongEnough;
  }

  // While a sample does run into a limit, the frequency is that limit and the drift stays.
  lemma SampleOutOfRange(s: Pi, lim: Limits, offset: int, local: int, weight: real)
    requires s.ki >= 0.0 && s.count == 2 && !Over(lim.stepThreshold, offset) && lim.maxFrequency >= 0.0
    requires !(-lim.maxFrequency <= Wanted(s, offset, weight) <= lim.maxFrequency)
    ensures PiSample(s, lim, offset, local, weight) ==
            (s.(lastFreq := if Wanted(s, offset, weight) > 0.0 then lim.maxFrequency else -lim.maxFrequency), Locked)
  {
    hide Term, Over;
  }

  // A locked servo that sees no offset keeps its drift, and the frequency returns to it.
  lemma NoOffsetNoChange(s: Pi, lim: Limits, local: int, weight: real)
    requires s.kp >= 0.0 && s.ki >= 0.0 && s.count == 2 && Bounded(s, lim) && lim.stepThreshold >= 0.0
    ensures PiSample(s, lim, 0, local, weight) == (s.(lastFreq := s.drift), Locked)
  {
    assert Term(s.kp, 0, weight) == 0.0 && Term(s.ki, 0, weight) == 0.0;
    hide Term;
  }

  // The offsets times their weights, added up.
  function WeightedSum(samples: seq<(int, real)>): real {
    if samples == [] then 0.0
    else WeightedSum(samples[..|samples| - 1]) + samples[|samples| - 1].0 as real * samples[|samples| - 1].1
  }

  // A locked servo after more samples, each an offset with its weight.
  function Follow(s: Pi, lim: Limits, samples: seq<(int, real)>): (r: Pi)
    requires s.ki >= 0.0
    ensures r.ki == s.ki && r.kp == s.kp
  {
    if samples == [] then s
    else
      var last := samples[|samples| - 1];
      PiSample(Follow(s, lim, samples[..|samples| - 1]), lim, last.0, 0, last.1).0
  }

  // What the controller asks for, before it is limited.
  function Wanted(s: Pi, offset: int, weight: real): real {
    Term(s.kp, offset, weight) + s.drift + Term(s.ki, offset, weight)
  }

  // No sample is over the step threshold, and none runs into the limits.
  ghost predicate InRange(s: Pi, lim: Limits, samples: seq<(int, real)>)
    requires s.ki >= 0.0
  {
    samples == [] ||
    (var p, last := samples[..|samples| - 1], samples[|samples| - 1];
     && InRange(s, lim, p) && !Over(lim.stepThreshold, last.0)
     && -lim.maxFrequency <= Wanted(Follow(s, lim, p), last.0, last.1) <= lim.maxFrequency)
  }

  lemma SampleInRange(s: Pi, lim: Limits, offset: int, local: int, weight: real)
    requires s.ki >= 0.0 && s.count == 2 && !Over(lim.stepThreshold, offset)
    requires -lim.maxFrequency <= Wanted(s, offset, weight) <= lim.maxFrequency
    ensures PiSample(s, lim, offset, local, weight).0 ==
            s.(lastFreq := Wanted(s, offset, weight), drift := s.drift + Term(s.ki, offset, weight))
  {
    hide Term, Over;
  }

  // The law of the controller: the frequency is the drift measured at the start, plus the integral gain
  // times the sum of all offsets, plus the proportional gain times the last one.
  ghost predicate Law(s: Pi, r: Pi, samples: seq<(int, real)>) {
    && r.count == 2 && r.kp == s.kp && r.ki == s.ki && r.drift == s.drift + s.ki * WeightedSum(samples)
    && (samples != [] ==>
          var (offset, weight) := samples[|samples| - 1];
          r.lastFreq == r.drift + s.kp * (offset as real * weight))
  }

  lemma {:induction false} ControlLaw(s: Pi, lim: Limits, samples: seq<(int, real)>)
    requires s.ki >= 0.0 && s.count == 2 && InRange(s, lim, samples)
    ensures Law(s, Follow(s, lim, samples), samples)
  {
    hide Law, PiSample, Over, Term, Wanted, WeightedSum;
    if samples == [] {
      LawAtStart(s);
    } else {
      var p, last := samples[..|samples| - 1], samples[|samples| - 1];
      ControlLaw(s, lim, p);
      LawStep(s, Follow(s, lim, p), lim, samples);
    }
  }

  lemma LawAtStart(s: Pi)
    requires s.count == 2
    ensures Law(s, s, [])
  {
    assert s.ki * 0.0 == 0.0;
  }

  lemma LawStep(s: Pi, q: Pi, lim: Limits, samples: seq<(int, real)>)
    requires samples != [] && q.ki >= 0.0 && Law(s, q, samples[..|samples| - 1])
    requires !Over(lim.stepThreshold, samples[|samples| - 1].0)
    requires -lim.maxFrequency <= Wanted(q, samples[|samples| - 1].0, samples[|samples| - 1].1) <= lim.maxFrequency
    ensures Law(s, PiSample(q, lim, samples[|samples| - 1].0, 0, samples[|samples| - 1].1).0, samples)
  {
    hide PiSample, Over, Term, Wanted, WeightedSum;
    var p, last := samples[..|samples| - 1], samples[|samples| - 1];
    SampleInRange(q, lim, last.0, 0, last.1);
    OneMoreSummand(samples);
    TermsAdd(q, s.drift, WeightedSum(p), last.0, last.1);
  }

  lemma OneMoreSummand(samples: seq<(int, real)>)
    requires samples != []
    ensures WeightedSum(samples) ==
            WeightedSum(samples[..|samples| - 1]) + samples[|samples| - 1].0 as real * samples[|samples| - 1].1
  {
  }

  lemma TermsAdd(q: Pi, drift: real, sum: real, offset: int, weight: real)
    requires q.drift == drift + q.ki * sum
    ensures q.drift + Term(q.ki, offset, weight) == drift + q.ki * (sum + offset as real * weight)
    ensures Wanted(q, offset, weight) == q.drift + Term(q.ki, offset, weight) + q.kp * (offset as real * weight)
  {
    TermIs(q.ki, offset, weight);
    TermIs(q.kp, offset, weight);
    Distributes(q.ki, sum, offset as real * weight);
  }

  lemma TermIs(gain: real, offset: int, weight: real)
    ensures Term(gain, offset, weight) == gain * (offset as real * weight)
  {
  }

  lemma Distributes(a: real, b: real, c: real)
    ensures a * (b + c) == a * b + a * c
  {
  }

  // ---- the stable state ----

  // A sample as servo_sample sees it: what the servo reported, and its offset.
  datatype Report = Report(state: State, offset: int)

  // servo_sample: how many small offsets are still missing after a report, and whether it is stable.
  function Missing(missing: nat, r: Report, threshold: nat, n: nat): nat {
    if r.state != Locked then n
    else if threshold != 0 && Abs(r.offset) < threshold && missing > 0 then missing - 1
    else missing
  }

  function MissingAfter(log: seq<Report>, threshold: nat, n: nat): nat {
    if log == [] then n else Missing(MissingAfter(log[..|log| - 1], threshold, n), log[|log| - 1], threshold, n)
  }

  // The offsets below the threshold since the servo was last not locked.
  function SmallOffsets(log: seq<Report>, threshold: nat): nat {
    if log == [] || log[|log| - 1].state != Locked then 0
    else SmallOffsets(log[..|log| - 1], threshold) + if Abs(log[|log| - 1].offset) < threshold then 1 else 0
  }

  // Stable means that enough small offsets have been seen in lock, though not one after the other.
  lemma {:induction false} StableIsEnoughSmall(log: seq<Report>, threshold: nat, n: nat)
    requires threshold > 0
    ensures var small := SmallOffsets(log, threshold);
            MissingAfter(log, threshold, n) == if small >= n then 0 else n - small
  {
    if log != [] {
      StableIsEnoughSmall(log[..|log| - 1], threshold, n);
    }
  }

  // ---- the servo ----

  class Servo {
    const lim: Limits
    const offsetThreshold: nat
    const numOffsetValues: nat
    var currOffsetValues: nat
    var firstUpdate: bool
    var offset0: int
    var offset1: int
    var local0: int
    var local1: int
    var drift: real
    var kp: real
    var ki: real
    var lastFreq: real
    var count: nat
    ghost const fadj: real
    ghost var log: seq<Input>
    ghost var reports: seq<Report>

    ghost function Snapshot(): Pi
      reads this
    {
      Pi(offset0, offset1, local0, local1, drift, kp, ki, lastFreq, count, firstUpdate)
    }

    ghost predicate Valid()
      reads this
    {
      && AllProper(log) && Snapshot() == Run(Created(fadj), lim, log).0
      && lim.maxFrequency >= 0.0 && count <= 2
      && currOffsetValues == MissingAfter(reports, offsetThreshold, numOffsetValues)
    }

    // servo_create and pi_servo_create
    constructor (fadj: real, lim: Limits, offsetThreshold: nat, numOffsetValues: nat)
      requires lim.maxFrequency >= 0.0
      ensures Valid() && log == [] && this.fadj == fadj && this.lim == lim
      ensures this.offsetThreshold == offsetThreshold && this.numOffsetValues == numOffsetValues
    {
      this.fadj, this.lim := fadj, lim;
      this.offsetThreshold, this.numOffsetValues, currOffsetValues := offsetThreshold, numOffsetValues, numOffsetValues;
      firstUpdate, offset0, offset1, local0, local1, count := true, 0, 0, 0, 0, 0;
      drift, lastFreq, kp, ki := fadj, fadj, 0.0, 0.0;
      log, reports := [], [];
    }

    ghost method Note(i: Input)
      requires AllProper(log) && Proper(i) && lim.maxFrequency >= 0.0
      requires Snapshot() == Step(Run(Created(fadj), lim, log).0, lim, i).0
      requires currOffsetValues == MissingAfter(reports, offsetThreshold, numOffsetValues)
      modifies this`log
      ensures Valid() && log == old(log) + [i]
    {
      log := log + [i];
      assert log[..|log| - 1] == old(log);
      BoundedOnceLocked(fadj, lim, log);
    }

    // pi_sample
    method PiSampleInPlace(offset: int, local: int, weight: real) returns (ppb: real, state: State)
      requires ki >= 0.0 && count <= 2
      modifies this`offset0, this`offset1, this`local0, this`local1, this`drift, this`lastFreq, this`count
      ensures (Snapshot(), state) == PiSample(old(Snapshot()), lim, offset, local, weight) && ppb == lastFreq
    {
      hide Term, Measured, LongEnough, Over;
      ppb, state := lastFreq, Unlocked;
      if count == 0 {
        offset0, local0, count := offset, local, 1;
      } else if count == 1 {
        offset1, local1 := offset, local;
        if local0 >= local1 {
          count := 0;
        } else if LongEnough(local0, local1, ki) {
          drift := Measured(drift, offset1 - offset0, local1 - local0);
          if drift < -lim.maxFrequency {
            drift := -lim.maxFrequency;
          } else if drift > lim.maxFrequency {
            drift := lim.maxFrequency;
          }
          state := if (firstUpdate && Over(lim.firstStepThreshold, offset)) || Over(lim.stepThreshold, offset) then Jump
                   else Locked;
          ppb := drift;
          count := 2;
        }
      } else if Over(lim.stepThreshold, offset) {
        count := 0;
      } else {
        var kiTerm := Term(ki, offset, weight);
        ppb := Term(kp, offset, weight) + drift + kiTerm;
        if ppb < -lim.maxFrequency {
          ppb := -lim.maxFrequency;
        } else if ppb > lim.maxFrequency {
          ppb := lim.maxFrequency;
        } else {
          drift := drift + kiTerm;
        }
        state := Locked;
      }
      lastFreq := ppb;
    }

    // The rest of servo_sample
    method Classify(offset: int, reported: State) returns (state: State)
      requires reported != LockedStable
      requires currOffsetValues == MissingAfter(reports, offsetThreshold, numOffsetValues)
      modifies this`currOffsetValues, this`firstUpdate, this`reports
      ensures firstUpdate == (old(firstUpdate) && reported == Unlocked)
      ensures reports == old(reports) + [Report(reported, offset)]
      ensures currOffsetValues == MissingAfter(reports, offsetThreshold, numOffsetValues)
      ensures state == if reported == Locked && offsetThreshold > 0 &&
              currOffsetValues == 0 then LockedStable else reported
    {
      state := reported;
      match reported {
        case Unlocked =>
          currOffsetValues := numOffsetValues;
        case Jump =>
          currOffsetValues := numOffsetValues;
          firstUpdate := false;
        case Locked =>
          if offsetThreshold != 0 {
            if Abs(offset) < offsetThreshold && currOffsetValues != 0 {
              currOffsetValues := currOffsetValues - 1;
            }
            if currOffsetValues == 0 {
              state := LockedStable;
            }
          }
          firstUpdate := false;
      }
      reports := reports + [Report(reported, offset)];
      assert reports[..|reports| - 1] == old(reports);
    }

    // servo_sample
    method Sample(offset: int, local: int, weight: real) returns (ppb: real, state: State)
      requires Valid() && weight >= 0.0
      modifies this
      ensures Valid() && log == old(log) + [Input.Sample(offset, local, weight)]
      ensures ppb == lastFreq && (state != Unlocked ==> -lim.maxFrequency <= ppb <= lim.maxFrequency)
      ensures reports == old(reports) + [Report(if state == LockedStable then Locked else state, offset)]
      ensures state == LockedStable <==>
              offsetThreshold > 0 && reports[|reports| - 1].state == Locked && currOffsetValues == 0
    {
      hide PiSample, Run, Step, MissingAfter;
      ghost var was := Snapshot();
      BoundedOnceLocked(fadj, lim, log);
      SampleBounds(was, lim, offset, local, weight);
      SampleIsStep(was, lim, offset, local, weight);
      var reported;
      ppb, reported := PiSampleInPlace(offset, local, weight);
      state := Classify(offset, reported);
      Note(Input.Sample(offset, local, weight));
    }

    // pi_reset
    method Reset()
      requires Valid()
      modifies this`count, this`log
      ensures Valid() && log == old(log) + [Input.Reset]
    {
      count := 0;
      Note(Input.Reset);
    }

    // pi_sync_interval, with the gains it computes
    method SyncInterval(kp: real, ki: real)
      requires Valid() && kp >= 0.0 && ki >= 0.0
      modifies this`kp, this`ki, this`log
      ensures Valid() && log == old(log) + [Gains(kp, ki)]
    {
      this.kp, this.ki := kp, ki;
      Note(Gains(kp, ki));
    }
  }
}
