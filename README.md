# Merchant cash advance payback schedule

A Dafny model of the calculation at the heart of the MCA underwriting dashboard
(`mca_cash_flow_dashboard.py`). From four sidebar inputs (advance amount,
retrieval rate, factor rate and daily revenue) the script computes:

- the total payback amount (advance times factor rate);
- the daily collection (daily revenue times retrieval rate over 100);
- the estimated payback period (payback over daily collection);
- the list of remaining balances, one per day `i` from 0 to `int(period)`, each
  `max(payback - i * collection, 0)`.

It then shows the key metrics and exports the list as a table of `Day` and
`Remaining Balance` columns.

The model has two modules:

- `McaPayback` (`payback.dfy`) holds the four inputs (`Terms`) and the
  sidebar's widget bounds (`WithinWidgetBounds`). `Compute` is the calculation
  as Python runs it on any inputs. It raises `ZeroDivisionError` exactly when the
  daily collection is zero; `int()` truncates toward zero; `range(n)` is empty
  when `n <= 0`. `Schedule` is the same list for inputs within the widget bounds.
  The lemmas about it cover its length, entries, bounds, monotonicity and final
  balance.
- `McaDashboard` (`dashboard.dfy`) covers the rest of the page. Nothing is
  calculated until a file is uploaded. The report holds the key metrics, the
  balances and the export table, whose day column is `range(len(balances))`.
  The report does not depend on what was uploaded.

All quantities are exact `real`s. `int(x)` on the positive period is `x.Floor`.

Two behaviours of the script are worth knowing:

- The schedule does not in general end at 0.
  The chart draws a "Payback Complete" line at 0 (line 50), and line 33 clamps each balance with `max(..., 0)`.
  But `int()` floors the period, so the list has `floor(payback / collection) + 1` entries.
  Its last entry is the remainder `payback - floor(payback / collection) * collection`, which lies in `[0, collection)` (`FinalBalance`).
  That remainder is 0 only when the payback is a whole number of daily collections.
  With 1000 / 30% / 1.0 / 100 the list has 34 entries ending at 10 (`SmallestAdvanceSchedule`).
  The clamp never takes effect inside the index range (`DayWithinPeriod`, `ScheduleEntry`).
- The script has no input guard of its own beyond the widget bounds.
  A zero daily collection would raise `ZeroDivisionError` at line 32 (`ComputeFailsIffNoCollections`).
  A negative collection would yield a list, possibly empty.
  The widget bounds rule out both cases (`ComputeWithinBounds`).

## Model

| member | source | states |
|---|---|---|
| `McaPayback.WithinWidgetBounds` | mca_cash_flow_dashboard.py:24-27 | definition: advance at least 1000, retrieval rate in [5, 30], factor rate in [1, 2], daily revenue at least 100 |
| `McaPayback.PaybackAmount` | mca_cash_flow_dashboard.py:30 | advance times factor rate; at least the advance whenever the advance is non-negative and the factor at least 1 |
| `McaPayback.DailyCollections` | mca_cash_flow_dashboard.py:31 | daily revenue times retrieval rate over 100; zero if and only if the revenue or the rate is zero |
| `McaPayback.EstimatedPaybackPeriod` | mca_cash_flow_dashboard.py:32 | the period times the daily collection gives back the total payback |
| `McaPayback.PaybackDays` | mca_cash_flow_dashboard.py:32-33 | under the widget bounds the collection is positive, and the whole number of days is the floor of the period: `days <= period < days + 1` |
| `McaPayback.Max` | mca_cash_flow_dashboard.py:33 | Python's `max` of two numbers: at least both arguments and equal to one of them |
| `McaPayback.RemainingBalance` | mca_cash_flow_dashboard.py:33 | the balance after day i is never negative, and equals `payback - i * collection` whenever that is not negative |
| `McaPayback.Balances` | mca_cash_flow_dashboard.py:33 | the comprehension over `range(count)` has `count` entries (none when count is not positive), all non-negative |
| `McaPayback.Compute` | mca_cash_flow_dashboard.py:30-33 | on any inputs the calculation fails if and only if the daily collection is zero |
| `McaPayback.Schedule` | mca_cash_flow_dashboard.py:30-33 | within the widget bounds the list has `PaybackDays + 1` entries and starts at the total payback |
| `McaDashboard.Frame` | mca_cash_flow_dashboard.py:58-61 | definition: the data frame's rows pair the day column and the balance column position by position |
| `McaDashboard.ExportTable` | mca_cash_flow_dashboard.py:58-61 | definition: the header "Day", "Remaining Balance" and the frame of `range(len(balances))` with the balances |
| `McaPayback.CollectionsPositive` | mca_cash_flow_dashboard.py:24-32 | under the widget bounds the daily collection is at least 5 (so the division at line 32 is defined) and the payback is at least the advance, itself at least 1000 |
| `McaPayback.Truncate` | mca_cash_flow_dashboard.py:33 | `int()` truncates toward zero: for non-negative x the result is the largest integer not above x, for negative x the smallest integer not below x |
| `McaPayback.ComputeFailsIffNoCollections` | mca_cash_flow_dashboard.py:30-33 | on arbitrary inputs the calculation raises a division error if and only if the daily revenue or the retrieval rate is zero |
| `McaPayback.ComputeWithinBounds` | mca_cash_flow_dashboard.py:24-33 | within the widget bounds the calculation never fails and yields exactly the schedule |
| `McaPayback.DayWithinPeriod` | mca_cash_flow_dashboard.py:32-33 | for every day index up to `int(payback / collection)`, that many collections never exceed the payback, so the clamp at zero is inactive |
| `McaPayback.ScheduleLength` | mca_cash_flow_dashboard.py:32-33 | the schedule has `floor(payback / collection) + 1` entries, hence at least one |
| `McaPayback.ScheduleEntry` | mca_cash_flow_dashboard.py:30-33 | entry i equals `max(payback - i * collection, 0)` and also equals the unclamped `payback - i * collection`; entry 0 is the total payback |
| `McaPayback.ScheduleBounded` | mca_cash_flow_dashboard.py:33 | every entry lies between 0 and the total payback |
| `McaPayback.ScheduleStep` | mca_cash_flow_dashboard.py:33 | consecutive entries differ by exactly the daily collection |
| `McaPayback.ScheduleNonIncreasing` | mca_cash_flow_dashboard.py:33 | for all i <= j in range, entry j is at most entry i |
| `McaPayback.QuotientFloor` | mca_cash_flow_dashboard.py:32-33 | for a positive collection, k is the floor of payback / collection if and only if k collections fit into the payback with less than one collection left |
| `McaPayback.PaybackDaysExactly` | mca_cash_flow_dashboard.py:32-33 | the schedule covers k whole days after day 0 if and only if `k * collection <= payback < (k + 1) * collection` |
| `McaPayback.FinalBalance` | mca_cash_flow_dashboard.py:32-33 | the last entry is `payback - floor(payback / collection) * collection`, lies in `[0, collection)`, and is 0 if and only if payback / collection is a whole number |
| `McaPayback.DefaultInputsSchedule` | mca_cash_flow_dashboard.py:24-33 | the widget defaults (50000, 10%, 1.2, 1000) give payback 60000, collection 100 and 601 entries from 60000 down to exactly 0 |
| `McaPayback.SmallestAdvanceSchedule` | mca_cash_flow_dashboard.py:24-33 | inputs 1000, 30%, 1.0, 100 give payback 1000, collection 30 and 34 entries whose last is 10, not 0 |
| `McaDashboard.KeyMetrics` | mca_cash_flow_dashboard.py:30-43 | the shown metrics carry the inputs unchanged; the total, collection and period are `PaybackAmount`, `DailyCollections` and `EstimatedPaybackPeriod` of the inputs, the total being the schedule's first entry; the collection is at least 5; the total is at least the advance; period times collection is the total; the period's floor plus one is the schedule length |
| `McaDashboard.Range` | mca_cash_flow_dashboard.py:59 | `range(n)` has n entries and entry d is d |
| `McaDashboard.ExportPairsDays` | mca_cash_flow_dashboard.py:58-61 | the export has columns "Day" and "Remaining Balance", one row per balance, and row d is (d, balance d) |
| `McaDashboard.FrameBalanceColumn` | mca_cash_flow_dashboard.py:58-61 | a table built from a day column and a balance column of equal length gives back that balance column |
| `McaDashboard.ExportBalancesRoundTrip` | mca_cash_flow_dashboard.py:58-61 | reading the "Remaining Balance" column out of the export returns the schedule unchanged |
| `McaDashboard.Dashboard` | mca_cash_flow_dashboard.py:13-33 | a report exists if and only if a file was uploaded (and parsed; a file that fails to parse raises at line 15 or 17 before the calculation) |
| `McaDashboard.ReportIgnoresUpload` | mca_cash_flow_dashboard.py:13-33 | any two uploads with the same inputs give the same report: the uploaded data is never read by the calculation |
| `McaDashboard.ReportExportMatchesSchedule` | mca_cash_flow_dashboard.py:30-61 | the report's balances are `Schedule(t)` and its metrics `KeyMetrics(t)`; the export has `floor(period) + 1` rows, row d being (d, schedule entry d), row 0 being (0, total payback); its balance column is the schedule |

## Left out

- The page's presentation is not modelled: the title, the sidebar widgets, `st.write`, `st.json`, `st.info`, the footer and the deployment text.
  Only the numeric bounds of the widgets enter the model, as `WithinWidgetBounds`.
- Parsing the upload with `pd.read_csv` or `pd.read_excel` is library I/O. An upload is an opaque table of cells that parsed, and the calculation never reads it.
- Dashboard: a file that fails to parse raises at line 15 or 17 and stops the page before the calculation; the model starts from parsed cells, so it has no such failure.
- The matplotlib chart of lines 47-54 is plotting. It draws the same day/balance pairs as the export.
- The CSV text produced by `DataFrame.to_csv` and the download button are not modelled. The export is modelled as a header and a list of rows.
- Floating-point rounding in the products and the quotient of lines 30-32 is not modelled. Exact reals are used. Rounding matters mainly when the exact quotient payback / collection is at or near a whole number: there it can move `int(period)` by one, which changes the schedule's length and whether it ends at 0.
- The widgets' types and steps are not modelled. They return integers for the advance and the revenue, and multiples of 0.1 for the two rates. `WithinWidgetBounds` admits any real in range, which is more general.
- Streamlit reruns the script on every input change. Each run is one call of `Dashboard`, and functions are deterministic.
