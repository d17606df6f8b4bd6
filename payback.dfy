/** The merchant-cash-advance payback calculation of the dashboard: from four
    inputs (advance amount, retrieval rate, factor rate, daily revenue) it
    derives the total payback, the daily collection, the estimated payback
    period and the list of remaining balances, one per day.

    Money and rates are exact reals; the source's floating-point rounding is
    not modelled. */
module McaPayback {

  /** The four numbers the sidebar collects. */
  datatype Terms = Terms(advance: real, retrievalRate: real, factorRate: real, dailyRevenue: real)

  /** The one failure the calculation can raise: dividing by a zero daily collection. */
  datatype Error = ZeroDivisionError

  datatype Result<T> = Success(value: T) | Failure(error: Error)

  /** The sidebar widgets' bounds: an advance of at least 1000, a retrieval
      rate between 5 and 30 percent, a factor rate between 1 and 2 and a daily
      revenue of at least 100. They are the only guard on the inputs. */
  predicate WithinWidgetBounds(t: Terms) {
    && t.advance >= 1000.0
    && 5.0 <= t.retrievalRate <= 30.0
    && 1.0 <= t.factorRate <= 2.0
    && t.dailyRevenue >= 100.0
  }

  /** Total payback: the advance times the factor rate. */
  function PaybackAmount(t: Terms): (payback: real)
    ensures t.advance >= 0.0 && t.factorRate >= 1.0 ==> payback >= t.advance
  {
    t.advance * t.factorRate
  }

  /** Daily collection: the retrieval-rate percentage of the daily revenue. */
  function DailyCollections(t: Terms): (collections: real)
    ensures collections == 0.0 <==> t.dailyRevenue == 0.0 || t.retrievalRate == 0.0
  {
    t.dailyRevenue * (t.retrievalRate / 100.0)
  }

  /** Estimated payback period in days (a fraction in general). */
  function EstimatedPaybackPeriod(t: Terms): (period: real)
    requires DailyCollections(t) != 0.0
    ensures period * DailyCollections(t) == PaybackAmount(t)
  {
    PaybackAmount(t) / DailyCollections(t)
  }

  /** Python's int() on a number: truncation toward zero. */
  function Truncate(x: real): (n: int)
    ensures 0.0 <= x ==> 0 <= n && n as real <= x < n as real + 1.0
    ensures x < 0.0 ==> n <= 0 && n as real - 1.0 < x <= n as real
  {
    if x >= 0.0 then x.Floor else -((-x).Floor)
  }

  /** Python's max(a, b): b only when it is strictly larger. */
  function Max(a: real, b: real): (m: real)
    ensures m >= a && m >= b
    ensures m == a || m == b
  {
    if b > a then b else a
  }

  /** The balance left after day i: the payback less i daily collections, clamped at zero. */
  function RemainingBalance(payback: real, collections: real, i: int): (balance: real)
    ensures balance >= 0.0
    ensures i as real * collections <= payback ==> balance == payback - i as real * collections
  {
    Max(payback - i as real * collections, 0.0)
  }

  /** The list comprehension over range(count): empty when count is not positive. */
  function Balances(payback: real, collections: real, count: int): (balances: seq<real>)
    ensures |balances| == if count <= 0 then 0 else count
    ensures forall i :: 0 <= i < |balances| ==> balances[i] >= 0.0
  {
    if count <= 0 then [] else seq(count, i => RemainingBalance(payback, collections, i))
  }

  /** The calculation as the script runs it, on any inputs: it fails exactly
      where the division by the daily collection does. */
  function Compute(t: Terms): (r: Result<seq<real>>)
    ensures r.Failure? <==> DailyCollections(t) == 0.0
  {
    var payback := PaybackAmount(t);
    var collections := DailyCollections(t);
    if collections == 0.0 then Failure(ZeroDivisionError)
    else Success(Balances(payback, collections, Truncate(payback / collections) + 1))
  }

  /** Under the widget bounds the daily collection is at least 5, and the total
      payback is at least the advance. */
  lemma CollectionsPositive(t: Terms)
    requires WithinWidgetBounds(t)
    ensures DailyCollections(t) >= 5.0
    ensures PaybackAmount(t) >= t.advance >= 1000.0
  {
    var rate := t.retrievalRate / 100.0;
    assert rate >= 0.05;
    MulMonotone(100.0, t.dailyRevenue, rate);
    calc {
      DailyCollections(t);
    ==
      t.dailyRevenue * rate;
    >=
      100.0 * rate;
    >=
      5.0;
    }
  }

  /** Whole days of the estimated payback period under the widget bounds. */
  function PaybackDays(t: Terms): (days: nat)
    requires WithinWidgetBounds(t)
    ensures DailyCollections(t) > 0.0
    ensures days as real <= EstimatedPaybackPeriod(t) < days as real + 1.0
  {
    CollectionsPositive(t);
    EstimatedPaybackPeriod(t).Floor
  }

  /** The remaining-balance schedule for inputs within the widget bounds. */
  function Schedule(t: Terms): (balances: seq<real>)
    requires WithinWidgetBounds(t)
    ensures |balances| == PaybackDays(t) + 1
    ensures balances[0] == PaybackAmount(t)
  {
    CollectionsPositive(t);
    Balances(PaybackAmount(t), DailyCollections(t), PaybackDays(t) + 1)
  }

  /** The calculation fails exactly when the daily revenue or the retrieval rate is zero. */
  lemma ComputeFailsIffNoCollections(t: Terms)
    ensures Compute(t).Failure? <==> (t.dailyRevenue == 0.0 || t.retrievalRate == 0.0)
  {
    if t.dailyRevenue != 0.0 && t.retrievalRate != 0.0 {
      assert t.retrievalRate / 100.0 != 0.0;
      assert DailyCollections(t) != 0.0;
    }
  }

  /** Within the widget bounds the calculation never fails, and its result is the schedule. */
  lemma ComputeWithinBounds(t: Terms)
    requires WithinWidgetBounds(t)
    ensures Compute(t) == Success(Schedule(t))
  {
    CollectionsPositive(t);
    var period := PaybackAmount(t) / DailyCollections(t);
    assert period >= 0.0;
    assert Truncate(period) == period.Floor;
  }

  /** Entry i of the schedule is never clamped: i whole days of collection never exceed the payback. */
  lemma DayWithinPeriod(payback: real, collections: real, i: int)
    requires payback >= 0.0 && collections > 0.0
    requires 0 <= i <= (payback / collections).Floor
    ensures i as real * collections <= payback
  {
    var q := payback / collections;
    assert i as real <= q;
    assert i as real * collections <= q * collections;
    assert q * collections == payback;
  }

  /** The schedule has floor(payback / collections) + 1 entries, so at least one. */
  lemma ScheduleLength(t: Terms)
    requires WithinWidgetBounds(t)
    ensures DailyCollections(t) > 0.0
    ensures |Schedule(t)| == (PaybackAmount(t) / DailyCollections(t)).Floor + 1
    ensures |Schedule(t)| >= 1
  {
    CollectionsPositive(t);
  }

  /** Entry i is the payback less i daily collections, never clamped; entry 0 is the payback. */
  lemma ScheduleEntry(t: Terms, i: int)
    requires WithinWidgetBounds(t)
    requires 0 <= i < |Schedule(t)|
    ensures Schedule(t)[i] == PaybackAmount(t) - i as real * DailyCollections(t)
    ensures Schedule(t)[i] == RemainingBalance(PaybackAmount(t), DailyCollections(t), i)
    ensures Schedule(t)[0] == PaybackAmount(t)
  {
    CollectionsPositive(t);
    DayWithinPeriod(PaybackAmount(t), DailyCollections(t), i);
  }

  /** Every entry lies between zero and the payback amount. */
  lemma ScheduleBounded(t: Terms)
    requires WithinWidgetBounds(t)
    ensures forall i :: 0 <= i < |Schedule(t)| ==> 0.0 <= Schedule(t)[i] <= PaybackAmount(t)
  {
    CollectionsPositive(t);
    forall i | 0 <= i < |Schedule(t)|
      ensures 0.0 <= Schedule(t)[i] <= PaybackAmount(t)
    {
      ScheduleEntry(t, i);
      DayWithinPeriod(PaybackAmount(t), DailyCollections(t), i);
    }
  }

  /** Consecutive entries differ by exactly the daily collection. */
  lemma ScheduleStep(t: Terms, i: int)
    requires WithinWidgetBounds(t)
    requires 0 <= i && i + 1 < |Schedule(t)|
    ensures Schedule(t)[i] - Schedule(t)[i + 1] == DailyCollections(t)
  {
    ScheduleEntry(t, i);
    ScheduleEntry(t, i + 1);
  }

  /** The schedule is non-increasing. */
  lemma ScheduleNonIncreasing(t: Terms)
    requires WithinWidgetBounds(t)
    ensures forall i, j :: 0 <= i <= j < |Schedule(t)| ==> Schedule(t)[j] <= Schedule(t)[i]
  {
    CollectionsPositive(t);
    forall i, j | 0 <= i <= j < |Schedule(t)|
      ensures Schedule(t)[j] <= Schedule(t)[i]
    {
      ScheduleEntry(t, i);
      ScheduleEntry(t, j);
      assert (j - i) as real * DailyCollections(t) >= 0.0;
    }
  }

  /** Whole days k of a positive collection fit into the payback, with less
      than one collection left over, exactly when k is the floor of their
      quotient. */
  lemma QuotientFloor(payback: real, collections: real, k: int)
    requires collections > 0.0
    ensures (payback / collections).Floor == k
        <==> k as real * collections <= payback < k as real * collections + collections
  {
    if (payback / collections).Floor == k {
      FloorBoundsRemainder(payback, collections);
    }
    if k as real * collections <= payback < k as real * collections + collections {
      RemainderBoundsFloor(payback, collections, k);
    }
  }

  lemma FloorBoundsRemainder(payback: real, collections: real)
    requires collections > 0.0
    ensures var f := (payback / collections).Floor as real;
            f * collections <= payback < f * collections + collections
  {
    var q := payback / collections;
    var f := q.Floor as real;
    assert f <= q < f + 1.0;
    MulMonotone(f, q, collections);
    MulStrictMonotone(q - f, 1.0, collections);
    QuotientTimesDivisor(payback, collections);
    calc {
      payback;
    ==
      f * collections + (q - f) * collections;
    <
      f * collections + collections;
    }
  }

  lemma QuotientTimesDivisor(x: real, y: real)
    requires y != 0.0
    ensures (x / y) * y == x
  {
  }

  lemma RemainderBoundsFloor(payback: real, collections: real, k: int)
    requires collections > 0.0
    requires k as real * collections <= payback < k as real * collections + collections
    ensures (payback / collections).Floor == k
  {
    var q := payback / collections;
    assert q * collections == payback;
    assert (k as real + 1.0) * collections == k as real * collections + collections;
    if q < k as real {
      MulStrictMonotone(q, k as real, collections);
      assert false;
    }
    if q >= k as real + 1.0 {
      MulMonotone(k as real + 1.0, q, collections);
      assert false;
    }
    FloorUnique(q, k);
  }

  lemma FloorUnique(x: real, k: int)
    requires k as real <= x < k as real + 1.0
    ensures x.Floor == k
  {
    assert x.Floor as real <= x < x.Floor as real + 1.0;
    assert x.Floor < k + 1 && k < x.Floor + 1;
  }

  lemma MulMonotone(a: real, b: real, c: real)
    requires a <= b && c >= 0.0
    ensures a * c <= b * c
  {
    assert b * c - a * c == (b - a) * c;
  }

  lemma MulStrictMonotone(a: real, b: real, c: real)
    requires a < b && c > 0.0
    ensures a * c < b * c
  {
    assert b * c - a * c == (b - a) * c;
  }

  /** The period covers k whole days exactly when k collections fit into the
      payback with less than one collection left over. */
  lemma PaybackDaysExactly(t: Terms, k: int)
    requires WithinWidgetBounds(t)
    ensures PaybackDays(t) == k
        <==> k as real * DailyCollections(t) <= PaybackAmount(t)
             < k as real * DailyCollections(t) + DailyCollections(t)
  {
    CollectionsPositive(t);
    QuotientFloor(PaybackAmount(t), DailyCollections(t), k);
  }

  /** The last entry is what is left after the whole days of the period: it
      lies in [0, collections) and is zero exactly when the payback is a whole
      number of daily collections. */
  lemma FinalBalance(t: Terms)
    requires WithinWidgetBounds(t)
    ensures var s := Schedule(t);
            var c := DailyCollections(t);
            var q := PaybackAmount(t) / c;
            && s[|s| - 1] == PaybackAmount(t) - q.Floor as real * c
            && 0.0 <= s[|s| - 1] < c
            && (s[|s| - 1] == 0.0 <==> q == q.Floor as real)
  {
    CollectionsPositive(t);
    var s := Schedule(t);
    var p, c := PaybackAmount(t), DailyCollections(t);
    var q := p / c;
    ScheduleEntry(t, |s| - 1);
    QuotientFloor(p, c, q.Floor);
    if s[|s| - 1] == 0.0 {
      assert p == q.Floor as real * c;
      assert q == q.Floor as real;
    }
  }

  /** The default inputs (50000 at factor 1.2, 10% of 1000 a day) give 601
      entries, from 60000 down to exactly 0. */
  lemma DefaultInputsSchedule()
    ensures var t := Terms(50000.0, 10.0, 1.2, 1000.0);
            && WithinWidgetBounds(t)
            && PaybackAmount(t) == 60000.0
            && DailyCollections(t) == 100.0
            && |Schedule(t)| == 601
            && Schedule(t)[0] == 60000.0
            && Schedule(t)[600] == 0.0
  {
    var t := Terms(50000.0, 10.0, 1.2, 1000.0);
    assert PaybackDays(t) == 600;
    ScheduleEntry(t, 600);
  }

  /** The smallest advance at factor 1.0, with 30% of 100 a day, gives 34
      entries whose last is 10: the schedule does not reach 0. */
  lemma SmallestAdvanceSchedule()
    ensures var t := Terms(1000.0, 30.0, 1.0, 100.0);
            && WithinWidgetBounds(t)
            && PaybackAmount(t) == 1000.0
            && DailyCollections(t) == 30.0
            && |Schedule(t)| == 34
            && Schedule(t)[33] == 10.0
  {
    var t := Terms(1000.0, 30.0, 1.0, 100.0);
    assert PaybackDays(t) == 33;
    ScheduleEntry(t, 33);
  }
}
