/** The time stamp processor of `tsproc.c`, on top of one of the two delay filters. */
module TimestampProcessor {
  import opened Prelude
  import opened DelayFilters

  datatype Mode = Filter | Raw | FilterWeight | RawWeight
  datatype FilterType = MovingAverageFilter | MovingMedianFilter

  // What the filter says of the samples since its reset.
  function Filtered(ftype: FilterType, length: nat, history: seq<int>): int
    requires history != [] && length >= 1
  {
    match ftype
    case MovingAverageFilter => Average(Window(history, length))
    case MovingMedianFilter => Median(Window(history, length))
  }

  // get_raw_delay
  function RawDelay(t1: int, t2: int, t3: int, t4: int, rateRatio: real): int {
    var t23 := if rateRatio != 1.0 then TruncReal((t2 - t3) as real * rateRatio) else t2 - t3;
    TruncDiv(t23 + (t4 - t1), 2)
  }

  function Weighting(mode: Mode): bool {
    mode == FilterWeight || mode == RawWeight
  }

  // The weight of a measurement; a raw delay that was not computed counts as zero.
  function Weight(mode: Mode, filteredDelay: int, rawDelay: int): (w: real)
    ensures 0.0 < w <= 1.0
    ensures w == 1.0 <==>
            (mode != FilterWeight && mode != RawWeight) || filteredDelay <= 0 || rawDelay <= 0 ||
            filteredDelay >= rawDelay
    ensures w < 1.0 ==> w * rawDelay as real == filteredDelay as real
  {
    if Weighting(mode) && filteredDelay > 0 && rawDelay > 0 then
      var w := filteredDelay as real / rawDelay as real;
      RatioIsPositive(filteredDelay, rawDelay);
      if w > 1.0 then 1.0 else w
    else 1.0
  }

  lemma RatioIsPositive(a: int, b: int)
    requires a > 0 && b > 0
    ensures a as real / b as real > 0.0
    ensures a as real / b as real >= 1.0 <==> a >= b
  {
    var w := a as real / b as real;
    assert w * b as real == a as real;
    if w >= 1.0 {
      assert w * b as real >= b as real;
    } else {
      assert w * b as real < b as real;
    }
  }

  // One exchange over a path with the delays `down` and `up`, when the local clock is ahead by `theta`.
  ghost predicate Exchange(t1: int, t2: int, t3: int, t4: int, down: int, up: int, theta: int) {
    t2 - t1 == down + theta && t4 - t3 == up - theta
  }

  // With equal frequencies the raw delay is the mean of the two, so that the offset is wrong by half of
  // their difference, to within half a nanosecond; it is exact for a symmetric path.
  lemma RawError(t1: int, t2: int, t3: int, t4: int, down: int, up: int, theta: int)
    requires Exchange(t1, t2, t3, t4, down, up, theta)
    ensures var delay := RawDelay(t1, t2, t3, t4, 1.0);
            var error := t2 - t1 - delay - theta;
            && -1 <= 2 * error - (down - up) <= 1
            && (down == up ==> delay == down && error == 0)
            && ((down + up) % 2 == 0 ==> 2 * error == down - up)
  {
  }

  // The same with reference time that passes `rate` times as fast as the local clock: the local clock is ahead by
  // `theta` when the Sync arrives, and the answer leaves after its stay.
  ghost predicate ExchangeAtRate(t1: int, t2: int, t3: int, t4: int, down: real, up: real, theta: real, rate: real) {
    && (t2 - t1) as real == down + theta
    && (t4 - t1) as real == down + (t3 - t2) as real * rate + up
  }

  lemma TruncationError(x: real)
    ensures -1.0 < x - TruncReal(x) as real < 1.0
  {
  }

  lemma HalvingError(x: int)
    ensures -1 <= x - 2 * TruncDiv(x, 2) <= 1
  {
  }

  // When the ratio is that rate, twice the delay is that of both ways to within two nanoseconds, so that the offset
  // is wrong by half of their difference to within one.
  lemma RawErrorAtRate(t1: int, t2: int, t3: int, t4: int, down: real, up: real, theta: real, rate: real)
    requires ExchangeAtRate(t1, t2, t3, t4, down, up, theta, rate)
    ensures var delay := RawDelay(t1, t2, t3, t4, rate) as real;
            var error := (t2 - t1) as real - delay - theta;
            && -2.0 < 2.0 * delay - (down + up) < 2.0
            && -2.0 < 2.0 * error - (down - up) < 2.0
  {
    var stay := (t3 - t2) as real * rate;
    var back := (t2 - t3) as real * rate;
    assert back == -stay by {
      Opposite(t2 - t3, t3 - t2, rate);
    }
    var t23 := if rate != 1.0 then TruncReal(back) else t2 - t3;
    assert rate == 1.0 ==> back == (t2 - t3) as real;
    TruncationError(back);
    hide TruncReal;
    HalvingError(t23 + (t4 - t1));
    hide TruncDiv;
  }

  lemma Opposite(a: int, b: int, rate: real)
    requires a == -b
    ensures a as real * rate == -(b as real * rate)
  {
  }

  // Any number of exchanges over a path of constant, symmetric delay: either filter gives that delay.
  lemma ConstantDelay(ftype: FilterType, length: nat, history: seq<int>, d: int)
    requires length >= 1 && history != [] && forall i :: 0 <= i < |history| ==> history[i] == d
    ensures Filtered(ftype, length, history) == d
  {
    FiltersStayBetween(Window(history, length), d, d);
  }

  // The same for all exchanges since the reset, with any clock difference in each: the delay and the
  // offset that are reported are exact in every mode, through either filter, with full weight.
  lemma SymmetricPath(mode: Mode, ftype: FilterType, length: nat, history: seq<int>, t1: int, t2: int, t3: int, t4: int,
                      d: int, theta: int)
    requires length >= 1 && forall i :: 0 <= i < |history| ==> history[i] == d
    requires Exchange(t1, t2, t3, t4, d, d, theta)
    ensures var raw := RawDelay(t1, t2, t3, t4, 1.0);
            var filtered := Filtered(ftype, length, history + [raw]);
            raw == filtered == d && t2 - t1 - raw == t2 - t1 - filtered == theta && Weight(mode, filtered, raw) == 1.0
  {
    RawError(t1, t2, t3, t4, d, d, theta);
    ConstantDelay(ftype, length, history + [d], d);
    hide RawDelay, Filtered;
  }

  // Whatever the path, the filtered delay stays between the raw delays of its window.
  lemma FilteredStaysBetween(ftype: FilterType, length: nat, history: seq<int>, lo: int, hi: int)
    requires length >= 1 && history != [] && Between(Window(history, length), lo, hi)
    ensures lo <= Filtered(ftype, length, history) <= hi
  {
    FiltersStayBetween(Window(history, length), lo, hi);
  }

  class TsProc {
    const mode: Mode
    const ftype: FilterType
    const average: MovingAverage?
    const median: MovingMedian?
    var rateRatio: real
    var t1: int
    var t2: int
    var t3: int
    var t4: int
    var filteredDelay: int
    var filteredDelayValid: bool

    ghost predicate Valid()
      reads this, average, median, if average == null then {} else {average.val},
            if median == null then {} else {median.order, median.samples}
    {
      match ftype
      case MovingAverageFilter => average != null && average.Valid()
      case MovingMedianFilter => median != null && median.Valid()
    }

    ghost function Length(): (n: nat)
      requires Valid()
      reads this, average, median, if average == null then {} else {average.val},
            if median == null then {} else {median.order, median.samples}
      ensures n >= 1
    {
      if ftype == MovingAverageFilter then average.val.Length else median.samples.Length
    }

    // The raw delays since the filter was reset.
    ghost function History(): seq<int>
      requires Valid()
      reads this, average, median, if average == null then {} else {average.val},
            if median == null then {} else {median.order, median.samples}
    {
      if ftype == MovingAverageFilter then average.history else median.history
    }

    ghost function Repr(): set<object>
      reads this
    {
      {this} + (if average == null then {} else {average, average.val})
      + (if median == null then {} else {median, median.order, median.samples})
    }

    // tsproc_create
    constructor (mode: Mode, ftype: FilterType, length: nat)
      requires length >= 1
      ensures Valid() && fresh(Repr()) && History() == [] && Length() == length
      ensures this.mode == mode && this.ftype == ftype && rateRatio == 1.0 && !filteredDelayValid
      ensures t1 == t2 == t3 == t4 == 0
    {
      this.mode := mode;
      this.ftype := ftype;
      if ftype == MovingAverageFilter {
        var f := new MovingAverage(length);
        average, median := f, null;
      } else {
        var f := new MovingMedian(length);
        average, median := null, f;
      }
      rateRatio := 1.0;
      t1, t2, t3, t4, filteredDelay, filteredDelayValid := 0, 0, 0, 0, 0, false;
    }

    // tsproc_down_ts
    method DownTs(remote: int, local: int)
      modifies this`t1, this`t2
      ensures t1 == remote && t2 == local
    {
      t1, t2 := remote, local;
    }

    // tsproc_up_ts
    method UpTs(local: int, remote: int)
      modifies this`t3, this`t4
      ensures t3 == local && t4 == remote
    {
      t3, t4 := local, remote;
    }

    // filter_sample
    method FilterSample(x: int) returns (r: int)
      requires Valid()
      modifies Repr() - {this}
      ensures Valid() && History() == old(History()) + [x] && Length() == old(Length())
      ensures r == Filtered(ftype, Length(), History())
    {
      hide Average, Median, Window;
      if ftype == MovingAverageFilter {
        r := average.Accumulate(x);
      } else {
        r := median.Sample(x);
      }
    }

    // tsproc_update_delay; None is the return value -1.
    method UpdateDelay() returns (delay: Option<int>)
      requires Valid()
      modifies Repr()
      ensures Valid() && Length() == old(Length())
      ensures t1 == old(t1) && t2 == old(t2) && t3 == old(t3) && t4 == old(t4) && rateRatio == old(rateRatio)
      ensures delay == None <==> t2 == 0 || t3 == 0
      ensures delay == None ==>
        History() == old(History()) && filteredDelay == old(filteredDelay) &&
            filteredDelayValid == old(filteredDelayValid)
      ensures delay != None ==>
        var raw := RawDelay(t1, t2, t3, t4, rateRatio);
        && History() == old(History()) + [raw] && filteredDelayValid
        && filteredDelay == Filtered(ftype, Length(), History())
        && delay.value == if mode == Raw || mode == RawWeight then raw else filteredDelay
    {
      hide Filtered, RawDelay;
      if t2 == 0 || t3 == 0 {
        return None;
      }
      var raw := RawDelay(t1, t2, t3, t4, rateRatio);
      var f := FilterSample(raw);
      filteredDelay, filteredDelayValid := f, true;
      match mode {
        case Filter | FilterWeight => return Some(filteredDelay);
        case Raw | RawWeight => return Some(raw);
      }
    }

    // tsproc_set_delay
    method SetDelay(delay: int)
      modifies this`filteredDelay, this`filteredDelayValid
      ensures filteredDelay == delay && filteredDelayValid
    {
      filteredDelay, filteredDelayValid := delay, true;
    }

    // tsproc_update_offset: the offset and its weight, or the return value -1
    method UpdateOffset() returns (result: Option<(int, real)>)
      ensures result == None <==>
              t1 == 0 || t2 == 0 || (mode != Filter && t3 == 0) ||
              ((mode == Filter || mode == FilterWeight) && !filteredDelayValid)
      ensures result != None ==>
        var raw := RawDelay(t1, t2, t3, t4, rateRatio);
        && result.value.0 == t2 - t1 - (if mode == Raw || mode == RawWeight then raw else filteredDelay)
        && result.value.1 == Weight(mode, filteredDelay, raw)
        && 0.0 < result.value.1 <= 1.0
    {
      hide RawDelay;
      if t1 == 0 || t2 == 0 {
        return None;
      }
      var delay, raw := 0, 0;
      match mode {
        case Filter =>
          if !filteredDelayValid {
            return None;
          }
          delay := filteredDelay;
        case Raw | RawWeight =>
          if t3 == 0 {
            return None;
          }
          raw := RawDelay(t1, t2, t3, t4, rateRatio);
          delay := raw;
        case FilterWeight =>
          if t3 == 0 || !filteredDelayValid {
            return None;
          }
          raw := RawDelay(t1, t2, t3, t4, rateRatio);
          delay := filteredDelay;
      }
      return Some((t2 - t1 - delay, Weight(mode, filteredDelay, raw)));
    }

    // tsproc_reset
    method Reset(full: bool)
      requires Valid()
      modifies Repr()
      ensures Valid() && Length() == old(Length()) && t1 == t2 == t3 == t4 == 0
      ensures full ==> History() == [] && !filteredDelayValid && rateRatio == 1.0
      ensures !full ==> History() == old(History()) && filteredDelayValid == old(filteredDelayValid)
                        && filteredDelay == old(filteredDelay) && rateRatio == old(rateRatio)
    {
      t1, t2, t3, t4 := 0, 0, 0, 0;
      if full {
        rateRatio := 1.0;
        if ftype == MovingAverageFilter {
          average.Reset();
        } else {
          median.Reset();
        }
        filteredDelayValid := false;
      }
    }
  }
}
