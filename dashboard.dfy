/** What the dashboard page does with the payback calculation: it runs only
    once a cash-flow file is uploaded, shows the key metrics, and exports the
    schedule as a two-column table of days and remaining balances. The page's
    widgets, chart and CSV text are not modelled. */
module McaDashboard {
  import opened McaPayback

  datatype Option<T> = None | Some(value: T)

  /** An uploaded cash-flow spreadsheet, as the cells it was parsed into. */
  datatype Upload = Upload(cells: seq<seq<string>>)

  /** The key metrics the page shows. */
  datatype Metrics = Metrics(
    advance: real,
    factorRate: real,
    totalPayback: real,
    dailyCollections: real,
    estimatedPaybackPeriod: real)

  /** One row of the exported table. */
  datatype Row = Row(day: int, remainingBalance: real)

  /** The exported table: its column names and its rows. */
  datatype Table = Table(header: seq<string>, rows: seq<Row>)

  /** Everything the page derives from one set of inputs. */
  datatype Report = Report(metrics: Metrics, balances: seq<real>, table: Table)

  const ExportHeader: seq<string> := ["Day", "Remaining Balance"]

  /** The key metrics: the period is the number of daily collections, in
      fractional days, that repay the total. */
  function KeyMetrics(t: Terms): (m: Metrics)
    requires WithinWidgetBounds(t)
    ensures m.advance == t.advance && m.factorRate == t.factorRate
    ensures m.totalPayback == PaybackAmount(t) == Schedule(t)[0]
    ensures m.dailyCollections == DailyCollections(t)
    ensures m.estimatedPaybackPeriod == EstimatedPaybackPeriod(t)
    ensures m.dailyCollections >= 5.0 && m.totalPayback >= m.advance
    ensures m.estimatedPaybackPeriod * m.dailyCollections == m.totalPayback
    ensures m.estimatedPaybackPeriod.Floor + 1 == |Schedule(t)|
  {
    CollectionsPositive(t);
    ScheduleLength(t);
    Metrics(t.advance, t.factorRate, PaybackAmount(t), DailyCollections(t), EstimatedPaybackPeriod(t))
  }

  /** Python's range(n): the days 0, 1, ..., n - 1 in order. */
  function Range(n: nat): (days: seq<int>)
    ensures |days| == n
    ensures forall d :: 0 <= d < n ==> days[d] == d
  {
    if n == 0 then [] else Range(n - 1) + [n - 1]
  }

  /** A data frame built from a column of days and a column of balances of the same length. */
  function Frame(days: seq<int>, balances: seq<real>): seq<Row>
    requires |days| == |balances|
  {
    seq(|days|, k requires 0 <= k < |days| => Row(days[k], balances[k]))
  }

  /** The export table: the day column is range(len(balances)). */
  function ExportTable(balances: seq<real>): Table {
    Table(ExportHeader, Frame(Range(|balances|), balances))
  }

  /** The remaining-balance column of a list of rows. */
  function BalanceColumn(rows: seq<Row>): (balances: seq<real>)
    ensures |balances| == |rows|
  {
    if rows == [] then [] else [rows[0].remainingBalance] + BalanceColumn(rows[1..])
  }

  /** Row d of the export pairs day d with balance d, under the two column names. */
  lemma ExportPairsDays(balances: seq<real>)
    ensures ExportTable(balances).header == ["Day", "Remaining Balance"]
    ensures |ExportTable(balances).rows| == |balances|
    ensures forall d :: 0 <= d < |balances| ==> ExportTable(balances).rows[d] == Row(d, balances[d])
  {
  }

  /** Whatever the day column, a frame's balance column is the balances it was built from. */
  lemma {:induction false} FrameBalanceColumn(days: seq<int>, balances: seq<real>)
    requires |days| == |balances|
    ensures BalanceColumn(Frame(days, balances)) == balances
  {
    if balances != [] {
      FrameBalanceColumn(days[1..], balances[1..]);
      assert Frame(days, balances)[1..] == Frame(days[1..], balances[1..]);
    }
  }

  /** Reading the balance column back out of the export gives the schedule unchanged. */
  lemma ExportBalancesRoundTrip(balances: seq<real>)
    ensures BalanceColumn(ExportTable(balances).rows) == balances
  {
    FrameBalanceColumn(Range(|balances|), balances);
  }

  /** The page: nothing is calculated until a file is uploaded; then the
      report is built from the four inputs alone. */
  function Dashboard(upload: Option<Upload>, t: Terms): (r: Option<Report>)
    requires upload.Some? ==> WithinWidgetBounds(t)
    ensures r.Some? <==> upload.Some?
  {
    match upload
    case None => None
    case Some(_) =>
      var balances := Schedule(t);
      Some(Report(KeyMetrics(t), balances, ExportTable(balances)))
  }

  /** The uploaded data is never read by the calculation: any two uploads give the same report. */
  lemma ReportIgnoresUpload(u1: Upload, u2: Upload, t: Terms)
    requires WithinWidgetBounds(t)
    ensures Dashboard(Some(u1), t) == Dashboard(Some(u2), t)
  {
  }

  /** The exported table has one row per scheduled day, starting at the full payback. */
  lemma ReportExportMatchesSchedule(u: Upload, t: Terms)
    requires WithinWidgetBounds(t)
    ensures var r := Dashboard(Some(u), t).value;
            && |r.table.rows| == |r.balances| == r.metrics.estimatedPaybackPeriod.Floor + 1
            && r.table.rows[0] == Row(0, r.metrics.totalPayback)
            && BalanceColumn(r.table.rows) == r.balances
            && r.balances == Schedule(t)
            && r.metrics == KeyMetrics(t)
            && forall d :: 0 <= d < |Schedule(t)| ==> r.table.rows[d] == Row(d, Schedule(t)[d])
  {
    var r := Dashboard(Some(u), t).value;
    ExportPairsDays(r.balances);
    ExportBalancesRoundTrip(r.balances);
    ScheduleEntry(t, 0);
  }
}
