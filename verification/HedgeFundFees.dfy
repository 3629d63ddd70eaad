/** Fees subject to a high-water mark (src/cfa/alternatives.py), over any run of periods. */
module HedgeFundFees {
  import opened Arithmetic
  import opened Options

  datatype Basis = Beginning | Ending

  datatype Terms = Terms(managementRate: real, incentiveRate: real, hurdleRate: real, basis: Basis, netOfManagement: bool)

  datatype Period = Period(beginning: real, ending: real)

  datatype FeeResult = FeeResult(managementFee: real, incentiveFee: real, totalFees: real, endingValueNet: real, highWaterMark: real, investorReturn: real)

  datatype FeeError = NonPositiveBeginning | NegativeRate

  function ManagementFee(terms: Terms, p: Period): real {
    Times(terms.managementRate, if terms.basis == Beginning then p.beginning else p.ending)
  }

  function Hurdle(terms: Terms, p: Period): real {
    p.beginning * (1.0 + terms.hurdleRate)
  }

  /** Both the mark and the hurdle must be passed. */
  function Threshold(terms: Terms, p: Period, mark: real): real {
    Max(mark, Hurdle(terms, p))
  }

  /** A share of what lies above the threshold. */
  function IncentiveFee(terms: Terms, p: Period, mark: real, managementFee: real): real {
    var base := if terms.netOfManagement then p.ending - managementFee else p.ending;
    Times(terms.incentiveRate, Max(base - Threshold(terms, p, mark), 0.0))
  }

  function Growth(from: real, to: real): real
    requires from > 0.0
  {
    to / from - 1.0
  }

  function Fees(terms: Terms, p: Period, highWaterMark: Option<real>): Result<FeeResult, FeeError> {
    if p.beginning <= 0.0 then Failure(NonPositiveBeginning)
    else if terms.managementRate < 0.0 || terms.incentiveRate < 0.0 then Failure(NegativeRate)
    else
      var mark := if highWaterMark.Some? then highWaterMark.value else p.beginning;
      var managementFee := ManagementFee(terms, p);
      var incentiveFee := IncentiveFee(terms, p, mark, managementFee);
      var net := p.ending - (managementFee + incentiveFee);
      Success(FeeResult(managementFee, incentiveFee, managementFee + incentiveFee, net, Max(mark, net), Growth(p.beginning, net)))
  }

  /** What one period comes to, exactly. The management fee is on one of the two values. Of
      the value above both the mark and the hurdle, if there is any, the manager takes his
      rate, and nothing otherwise. What is not taken in fees is what the investor has, and
      the mark moves up to it or stays. */
  lemma FeesExactly(terms: Terms, p: Period, mark: real)
    requires 0.0 < p.beginning && 0.0 <= terms.managementRate && 0.0 <= terms.incentiveRate
    ensures Fees(terms, p, Some(mark)).Success?
    ensures var fees, hurdle := Fees(terms, p, Some(mark)).value, Hurdle(terms, p);
      var base := p.ending - if terms.netOfManagement then fees.managementFee else 0.0;
      && fees.managementFee == Times(terms.managementRate, if terms.basis == Beginning then p.beginning else p.ending)
      && (base <= mark || base <= hurdle ==> fees.incentiveFee == 0.0)
      && (hurdle <= mark < base ==> fees.incentiveFee == Times(terms.incentiveRate, base - mark))
      && (mark <= hurdle < base ==> fees.incentiveFee == Times(terms.incentiveRate, base - hurdle))
      && fees.totalFees == fees.managementFee + fees.incentiveFee && fees.endingValueNet + fees.totalFees == p.ending
      && fees.highWaterMark == (if fees.endingValueNet <= mark then mark else fees.endingValueNet)
      && Times(p.beginning, 1.0 + fees.investorReturn) == fees.endingValueNet
  {
    var fees := Fees(terms, p, Some(mark)).value;
    ManagementIs(terms, p);
    IncentiveIs(terms, p, mark, fees.managementFee);
    GrowthIs(p.beginning, fees.endingValueNet);
    hide Growth, ManagementFee, IncentiveFee, Hurdle, Times;
  }

  lemma ManagementIs(terms: Terms, p: Period)
    ensures ManagementFee(terms, p) == Times(terms.managementRate, if terms.basis == Beginning then p.beginning else p.ending)
  {
  }

  lemma IncentiveIs(terms: Terms, p: Period, mark: real, managementFee: real)
    ensures var fee, hurdle := IncentiveFee(terms, p, mark, managementFee), Hurdle(terms, p);
      var base := p.ending - if terms.netOfManagement then managementFee else 0.0;
      && (base <= mark || base <= hurdle ==> fee == 0.0)
      && (hurdle <= mark < base ==> fee == Times(terms.incentiveRate, base - mark))
      && (mark <= hurdle < base ==> fee == Times(terms.incentiveRate, base - hurdle))
  {
    hide Hurdle;
  }

  /** A run without a mark begins at its first value. */
  lemma FirstMark(terms: Terms, p: Period)
    ensures Fees(terms, p, None) == Fees(terms, p, Some(p.beginning))
  {
    hide ManagementFee, IncentiveFee;
  }

  lemma GrowthIs(from: real, to: real)
    requires from > 0.0
    ensures Times(from, 1.0 + Growth(from, to)) == to
  {
    assert to / from * from == to;
  }

  /** The mark and the incentive fees taken over a run, each period starting from the mark
      the last one left. */
  function Run(terms: Terms, periods: seq<Period>, mark: real): Result<(real, real), FeeError> {
    if periods == [] then Success((mark, 0.0))
    else
      match Run(terms, periods[..|periods| - 1], mark)
      case Failure(e) => Failure(e)
      case Success((before, taken)) =>
        match Fees(terms, periods[|periods| - 1], Some(before))
        case Failure(e) => Failure(e)
        case Success(fees) => Success((fees.highWaterMark, taken + fees.incentiveFee))
  }

  /** Fees in the manager's proportion to what the investor keeps of a rise of the mark. */
  predicate WithinShare(rate: real, fees: real, rise: real) {
    (1.0 - rate) * fees <= rate * rise
  }

  lemma NothingTaken(rate: real)
    ensures WithinShare(rate, 0.0, 0.0)
  {
  }

  lemma OnePeriod(terms: Terms, p: Period, mark: real)
    requires terms.netOfManagement && terms.incentiveRate <= 1.0
    requires Fees(terms, p, Some(mark)).Success?
    ensures var fees := Fees(terms, p, Some(mark)).value;
      && mark <= fees.highWaterMark
      && 0.0 <= fees.incentiveFee
      && WithinShare(terms.incentiveRate, fees.incentiveFee, fees.highWaterMark - mark)
      && (fees.endingValueNet <= mark ==> fees.incentiveFee == 0.0 || terms.incentiveRate == 1.0)
  {
    var fees := Fees(terms, p, Some(mark)).value;
    var threshold := Threshold(terms, p, mark);
    var gain := Max(p.ending - fees.managementFee - threshold, 0.0);
    assert mark <= threshold;
    hide Growth, Times, WithinShare, Threshold, ManagementFee;
    assert fees.incentiveFee == Times(terms.incentiveRate, gain) && fees.highWaterMark == Max(mark, fees.endingValueNet);
    hide Fees, IncentiveFee, Max;
    ShareOfGain(terms.incentiveRate, gain, mark, threshold, p.ending - fees.managementFee, fees.incentiveFee, fees.highWaterMark);
  }

  /** A share of the gain above a threshold that is at least the mark. */
  lemma ShareOfGain(r: real, gain: real, mark: real, threshold: real, base: real, fee: real, newMark: real)
    requires 0.0 <= r <= 1.0 && mark <= threshold
    requires gain == Max(base - threshold, 0.0) && fee == Times(r, gain) && newMark == Max(mark, base - fee)
    ensures 0.0 <= fee && WithinShare(r, fee, newMark - mark)
    ensures base - fee <= mark ==> fee == 0.0 || r == 1.0
  {
    NonNegative(r, gain);
    if gain > 0.0 {
      NonNegative(1.0 - r, gain);
      assert (1.0 - r) * gain == gain - fee;
      NonNegative(r, newMark - mark - (1.0 - r) * gain);
      Rearranged(r, gain, newMark - mark);
      if r < 1.0 { PositiveProduct(1.0 - r, gain, (1.0 - r) * gain); }
    } else {
      NonNegative(r, newMark - mark);
    }
  }

  /** At a rate above 1 the share is never exceeded, for the investor's is negative. */
  lemma ShareAboveOne(rate: real, fees: real, rise: real)
    requires 1.0 <= rate && 0.0 <= fees && 0.0 <= rise
    ensures WithinShare(rate, fees, rise)
  {
    NonNegative(rate - 1.0, fees);
    NonNegative(rate, rise);
    assert (rate - 1.0) * fees == -((1.0 - rate) * fees);
  }

  lemma PeriodShare(terms: Terms, p: Period, mark: real)
    requires terms.netOfManagement || 1.0 <= terms.incentiveRate
    requires Fees(terms, p, Some(mark)).Success?
    ensures var fees := Fees(terms, p, Some(mark)).value;
      mark <= fees.highWaterMark && 0.0 <= fees.incentiveFee && WithinShare(terms.incentiveRate, fees.incentiveFee, fees.highWaterMark - mark)
  {
    if terms.incentiveRate <= 1.0 && terms.netOfManagement {
      OnePeriod(terms, p, mark);
    } else {
      var fees := Fees(terms, p, Some(mark)).value;
      FeesNonNegative(terms, p, mark);
      ShareAboveOne(terms.incentiveRate, fees.incentiveFee, fees.highWaterMark - mark);
    }
  }

  lemma FeesNonNegative(terms: Terms, p: Period, mark: real)
    requires Fees(terms, p, Some(mark)).Success?
    ensures var fees := Fees(terms, p, Some(mark)).value; mark <= fees.highWaterMark && 0.0 <= fees.incentiveFee
  {
    var fees := Fees(terms, p, Some(mark)).value;
    var base := if terms.netOfManagement then p.ending - fees.managementFee else p.ending;
    NonNegative(terms.incentiveRate, Max(base - Threshold(terms, p, mark), 0.0));
  }

  lemma Rearranged(r: real, gain: real, rise: real)
    requires 0.0 <= r * (rise - (1.0 - r) * gain)
    ensures (1.0 - r) * (r * gain) <= r * rise
  {
    assert r * (rise - (1.0 - r) * gain) == r * rise - r * ((1.0 - r) * gain);
    assert r * ((1.0 - r) * gain) == (1.0 - r) * (r * gain);
  }

  lemma Together(r: real, x: real, y: real, a: real, b: real, c: real)
    requires WithinShare(r, x, b - a) && WithinShare(r, y, c - b)
    ensures WithinShare(r, x + y, c - a)
  {
    assert (1.0 - r) * (x + y) == (1.0 - r) * x + (1.0 - r) * y;
    assert r * (b - a) + r * (c - b) == r * (c - a);
  }

  /** No double payment, with the incentive taken net or a rate of 1 or more: over any run of
      periods the mark never falls, and the incentive
      fees taken, scaled by what the investor keeps, are at most the manager's share of
      the total rise of the mark. Value lost and regained is never paid for again. */
  lemma {:induction false} NoDoublePayment(terms: Terms, periods: seq<Period>, mark: real)
    requires terms.netOfManagement || 1.0 <= terms.incentiveRate
    requires Run(terms, periods, mark).Success?
    ensures var (end, taken) := Run(terms, periods, mark).value;
      && mark <= end && 0.0 <= taken
      && WithinShare(terms.incentiveRate, taken, end - mark)
  {
    hide WithinShare, Fees;
    if periods == [] {
      NothingTaken(terms.incentiveRate);
      assert mark - mark == 0.0;
    } else {
      var front, last := periods[..|periods| - 1], periods[|periods| - 1];
      NoDoublePayment(terms, front, mark);
      var (before, taken) := Run(terms, front, mark).value;
      PeriodShare(terms, last, before);
      var fees := Fees(terms, last, Some(before)).value;
      assert Run(terms, periods, mark).value == (fees.highWaterMark, taken + fees.incentiveFee);
      hide Run;
      Together(terms.incentiveRate, taken, fees.incentiveFee, mark, before, fees.highWaterMark);
    }
  }

  lemma NoManagementFee(terms: Terms, p: Period, mark: real)
    requires terms.managementRate == 0.0
    ensures var net := terms.(netOfManagement := true);
      && ManagementFee(terms, p) == 0.0 == ManagementFee(net, p)
      && IncentiveFee(terms, p, mark, 0.0) == IncentiveFee(net, p, mark, 0.0)
  {
    assert p.ending - 0.0 == p.ending;
  }

  lemma SameFees(terms: Terms, p: Period, mark: real)
    requires terms.managementRate == 0.0
    ensures Fees(terms, p, Some(mark)) == Fees(terms.(netOfManagement := true), p, Some(mark))
  {
    hide IncentiveFee, ManagementFee;
    NoManagementFee(terms, p, mark);
  }

  lemma {:induction false} SameRun(terms: Terms, periods: seq<Period>, mark: real)
    requires terms.managementRate == 0.0
    ensures Run(terms, periods, mark) == Run(terms.(netOfManagement := true), periods, mark)
  {
    hide Fees;
    if periods != [] {
      var front, last := periods[..|periods| - 1], periods[|periods| - 1];
      SameRun(terms, front, mark);
      if Run(terms, front, mark).Success? { SameFees(terms, last, Run(terms, front, mark).value.0); }
    }
  }

  lemma {:induction false} MarkNeverFalls(terms: Terms, periods: seq<Period>, mark: real)
    requires Run(terms, periods, mark).Success?
    ensures mark <= Run(terms, periods, mark).value.0
    ensures terms.incentiveRate == 0.0 ==> Run(terms, periods, mark).value.1 == 0.0
  {
    if periods != [] { MarkNeverFalls(terms, periods[..|periods| - 1], mark); }
  }

  /** The fees taken over every run stay within the manager's share. */
  ghost predicate NeverPaysTwice(terms: Terms) {
    forall periods: seq<Period>, mark: real {:trigger Run(terms, periods, mark)} ::
      var r := Run(terms, periods, mark);
      r.Success? ==> WithinShare(terms.incentiveRate, r.value.1, r.value.0 - mark)
  }

  /** One good period under a gross incentive: the mark rises by less than what is left of
      the gain once the incentive is paid, because the management fee is paid as well. */
  lemma GrossPaysTwice(terms: Terms)
    requires 0.0 < terms.managementRate && 0.0 < terms.incentiveRate < 1.0 && !terms.netOfManagement
    ensures !NeverPaysTwice(terms)
  {
    var mark := Max(1.0, 1.0 + terms.hurdleRate);
    var p := Period(1.0, mark + 1.0);
    var r, m := terms.incentiveRate, terms.managementRate;
    var fees := Fees(terms, p, Some(mark)).value;
    assert fees.incentiveFee == r;
    PositiveProduct(m, mark + 1.0, m * (mark + 1.0));
    assert 0.0 < fees.managementFee;
    assert fees.highWaterMark - mark < 1.0 - r;
    TooSmallARise(r, fees.highWaterMark - mark);
    OnePeriodRun(terms, p, mark);
    hide Fees, WithinShare;
    assert Run(terms, [p], mark) == Success((fees.highWaterMark, r));
  }

  lemma TooSmallARise(r: real, rise: real)
    requires 0.0 < r && rise < 1.0 - r
    ensures !WithinShare(r, r, rise)
  {
    PositiveProduct(r, 1.0 - r - rise, r * (1.0 - r - rise));
    assert r * (1.0 - r - rise) == (1.0 - r) * r - r * rise;
  }

  lemma OnePeriodRun(terms: Terms, p: Period, mark: real)
    requires Fees(terms, p, Some(mark)).Success?
    ensures var fees := Fees(terms, p, Some(mark)).value;
      Run(terms, [p], mark) == Success((fees.highWaterMark, fees.incentiveFee))
  {
    hide Fees;
    assert [p][..0] == [];
    assert Run(terms, [], mark) == Success((mark, 0.0));
  }

  /** Exactly which terms never pay twice for the same value, among all the code accepts:
      those whose incentive is taken net of the management fee, those where that makes no
      difference, and those that leave the investor nothing of a gain. */
  lemma NoDoublePaymentExactly(terms: Terms)
    requires 0.0 <= terms.managementRate && 0.0 <= terms.incentiveRate
    ensures NeverPaysTwice(terms)
            <==> terms.netOfManagement || terms.managementRate == 0.0 || terms.incentiveRate == 0.0 || 1.0 <= terms.incentiveRate
  {
    if !terms.netOfManagement && terms.managementRate != 0.0 && 0.0 < terms.incentiveRate < 1.0 {
      GrossPaysTwice(terms);
    } else {
      forall periods: seq<Period>, mark: real | Run(terms, periods, mark).Success?
        ensures var r := Run(terms, periods, mark).value; WithinShare(terms.incentiveRate, r.1, r.0 - mark)
      {
        ShareOfRun(terms, periods, mark);
      }
    }
  }

  lemma ShareOfRun(terms: Terms, periods: seq<Period>, mark: real)
    requires 0.0 <= terms.incentiveRate && Run(terms, periods, mark).Success?
    requires terms.netOfManagement || terms.managementRate == 0.0 || terms.incentiveRate == 0.0 || 1.0 <= terms.incentiveRate
    ensures var r := Run(terms, periods, mark).value; WithinShare(terms.incentiveRate, r.1, r.0 - mark)
  {
    hide Run;
    if terms.netOfManagement || 1.0 <= terms.incentiveRate {
      NoDoublePayment(terms, periods, mark);
    } else if terms.managementRate == 0.0 {
      SameRun(terms, periods, mark);
      NoDoublePayment(terms.(netOfManagement := true), periods, mark);
    } else {
      MarkNeverFalls(terms, periods, mark);
    }
  }

  /** Taken before the management fee, the incentive can be paid with no rise of the mark at
      all. */
  lemma GrossIncentivePaysTwice()
    ensures var terms := Terms(0.1, 0.2, 0.0, Ending, false);
      var run := Run(terms, [Period(100.0, 110.0), Period(100.0, 110.0)], 100.0);
      run.Success? && run.value.0 == 100.0 && run.value.1 == 4.0
  {
    var terms := Terms(0.1, 0.2, 0.0, Ending, false);
    var p := Period(100.0, 110.0);
    assert Fees(terms, p, Some(100.0)).value.incentiveFee == 2.0;
    assert [p, p][..1] == [p] && [p][..0] == [];
    assert Run(terms, [], 100.0) == Success((100.0, 0.0));
    assert Run(terms, [p], 100.0) == Success((100.0, 2.0));
  }
}
