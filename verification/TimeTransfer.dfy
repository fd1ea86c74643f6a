/** What the corrections of a transparent clock are for: origin time and correction together are the time at
  which a Sync leaves, through one clock and through a chain of them.
 */
module TimeTransfer {
  import opened Prelude
  import opened TransparentClock
  import opened Forwarding

  // A time interval counts in units of 2^-16 ns.
  const SCALE := 65536.0

  // The way through one transparent clock: the two time stamps of the Sync, the frequency of the grandmaster as
  // the clock sees it, and what it knows of the path the Sync came in by.
  datatype Hop = Hop(ingress: int, egress: int, rateRatio: real, peerDelay: int, asymmetry: int)

  // The time interval holds 48 bits of nanoseconds.
  predicate Fits(ns: int) {
    -0x8000_0000_0000 <= ns <= 0x7fff_ffff_ffff
  }

  predicate HopFits(h: Hop) {
    Fits(Residence(h.ingress, h.egress, h.rateRatio)) && Fits(h.peerDelay)
  }

  // How long the Sync is in the clock, in nanoseconds of the grandmaster.
  function Stay(h: Hop): real {
    (h.egress - h.ingress) as real * h.rateRatio
  }

  // A Sync that left the neighbour at `left` is on its way for the peer delay and the asymmetry of the path, and
  // then stays in the clock.
  function LeavesAt(left: real, h: Hop): real {
    left + h.peerDelay as real * SCALE + h.asymmetry as real + Stay(h) * SCALE
  }

  // The correction of the Follow_Up behind the clock.
  function CorrectionBehind(correction: int, h: Hop): int {
    FollowUpCorrection(correction, Residence(h.ingress, h.egress, h.rateRatio), h.peerDelay, h.asymmetry)
  }

  // The time that a Follow_Up tells, for an origin in nanoseconds.
  function Told(origin: int, correction: int): real {
    origin as real * SCALE + correction as real
  }

  lemma TruncationError(x: real)
    ensures x >= 0.0 ==> 0.0 <= x - TruncReal(x) as real < 1.0
    ensures x <= 0.0 ==> -1.0 < x - TruncReal(x) as real <= 0.0
  {
  }

  lemma ResidenceError(h: Hop)
    ensures var r := Residence(h.ingress, h.egress, h.rateRatio) as real;
            -1.0 < Stay(h) - r < 1.0 && (h.rateRatio == 1.0 ==> Stay(h) == r)
  {
    var d := h.egress - h.ingress;
    if h.rateRatio == 1.0 {
      TimesOne(d as real);
      assert Stay(h) == d as real;
    } else {
      var x := Stay(h);
      assert Residence(h.ingress, h.egress, h.rateRatio) == TruncReal(x);
      TruncationError(x);
    }
  }

  lemma TimesOne(x: real)
    ensures x * 1.0 == x
  {
  }

  // Inside the range of the time interval the conversion is exact.
  lemma IntervalIsExact(ns: int)
    requires Fits(ns)
    ensures ToTimeInterval(ns) as real == ns as real * SCALE
  {
  }

  // Outside of it, it saturates, so that it never turns a time round.
  lemma IntervalIsMonotone(a: int, b: int)
    requires a <= b
    ensures ToTimeInterval(a) <= ToTimeInterval(b)
  {
  }

  // One clock: if a Sync left the neighbour when its Follow_Up says, it leaves the clock when the Follow_Up says
  // there, exactly with equal frequencies and to within a nanosecond otherwise.
  lemma ToldBehindClock(origin: int, correction: int, h: Hop)
    requires HopFits(h)
    ensures var leaves := LeavesAt(Told(origin, correction), h);
            var told := Told(origin, CorrectionBehind(correction, h));
            -SCALE < leaves - told < SCALE && (h.rateRatio == 1.0 ==> told == leaves)
  {
    var r := Residence(h.ingress, h.egress, h.rateRatio);
    ResidenceError(h);
    IntervalIsExact(r);
    IntervalIsExact(h.peerDelay);
    hide ToTimeInterval, Residence, Stay;
    var c := CorrectionBehind(correction, h);
    assert c == correction + ToTimeInterval(r) + ToTimeInterval(h.peerDelay) + h.asymmetry;
    assert c as real == correction as real + r as real * SCALE + h.peerDelay as real * SCALE + h.asymmetry as real;
    assert LeavesAt(Told(origin, correction), h) - Told(origin, c) == (Stay(h) - r as real) * SCALE;
  }

  function LeavesChain(left: real, hops: seq<Hop>): real {
    if hops == [] then left else LeavesAt(LeavesChain(left, hops[..|hops| - 1]), hops[|hops| - 1])
  }

  function CorrectionChain(correction: int, hops: seq<Hop>): int {
    if hops == [] then correction
    else CorrectionBehind(CorrectionChain(correction, hops[..|hops| - 1]), hops[|hops| - 1])
  }

  // How many of the clocks have another frequency than the grandmaster.
  function Skewed(hops: seq<Hop>): nat {
    if hops == [] then 0 else Skewed(hops[..|hops| - 1]) + if hops[|hops| - 1].rateRatio == 1.0 then 0 else 1
  }

  // A chain of clocks: behind the last one the Follow_Up is wrong by less than a nanosecond for each clock of
  // another frequency, and so not at all if there is none.
  lemma {:induction false} ToldBehindChain(origin: int, correction: int, hops: seq<Hop>)
    requires forall i :: 0 <= i < |hops| ==> HopFits(hops[i])
    ensures var leaves := LeavesChain(Told(origin, correction), hops);
            var told := Told(origin, CorrectionChain(correction, hops));
            -SCALE * Skewed(hops) as real <= leaves - told <= SCALE * Skewed(hops) as real
  {
    if hops != [] {
      hide HopFits, CorrectionBehind, LeavesAt, Told;
      var p, h := hops[..|hops| - 1], hops[|hops| - 1];
      ToldBehindChain(origin, correction, p);
      var left, c := LeavesChain(Told(origin, correction), p), CorrectionChain(correction, p);
      ToldBehindClock(origin, c, h);
      LeavesLater(left, Told(origin, c), h);
      assert Skewed(hops) as real == Skewed(p) as real + if h.rateRatio == 1.0 then 0.0 else 1.0;
    }
  }

  // Who leaves the neighbour later by some time leaves the clock later by the same.
  lemma LeavesLater(a: real, b: real, h: Hop)
    ensures LeavesAt(a, h) - LeavesAt(b, h) == a - b
  {
    hide Stay;
  }
}
