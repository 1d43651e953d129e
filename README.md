# Supercoop order analytics, modelled in Dafny

The supercoop app exports its orders as one JSON dump. Each order record
carries a nested `positions_hash` holding two maps. `members` maps member IDs
to whether the member collected the order and what they requested. `products`
maps product IDs to prices, tax rates and amounts, written as decimal-comma
strings. The analysis pipeline:

1. builds three tables from the dump: orders, members and products. The
   orders table is indexed and sorted by order ID, with its dates parsed. The
   members and products tables come from flattening every order's nested maps
   into rows that carry the order's ID.
2. derives features:
   - each product row's line total;
   - each member row's delivery date, taken from its order by a left join;
   - each order's rounded total value and number of participating members;
   - each member row's order request value: the rounded sum of filled amount
     times net price.
3. computes a cohort retention analysis. Each member's cohort is the month or
   quarter of their first delivery. The pivot counts the distinct members of
   each cohort active a given number of periods later. The retention matrix
   divides each pivot row by its first column.
4. computes an RFM table with one row per member:
   - recency: whole periods from the member's latest active week or month to
     the last delivery of all;
   - frequency: the number of active periods;
   - monetary value: the mean per-period order value.
   It then scores recency against fixed bins and frequency and monetary value
   against quartile bins, and joins the three scores into a three-digit string.

The project models these four steps over sequences of records:

- Dates are `(year, month, day)` triples, checked and converted to day numbers
  (`Calendar`).
- Money is `real`, rounded half-to-even at two decimals (`Money`).
- A pandas table whose columns are updated in place is a `Frame` object: a
  name tag and a sequence of rows (`Frames`).

The modules follow the repository:

- `Dataframes` models `src/data/dataframes.py`.
- `Features` models `src/data/features.py`.
- `Cohort` models `src/analysis/cohort.py`.
- `Rfm` models `src/analysis/rfm.py`, with `cut`/`qcut` binning in `Binning`.

`Text`, `Sorting` and `Wrappers` hold the string parsing, sorting and result
types these need.

## Model

| member | source | states |
|---|---|---|
| Calendar.ParseIsoDate | src/data/dataframes.py:36-40 | A parsed date lies within the range of a pandas timestamp, and a failure is always the `DateParse` error |
| Calendar.ParseFormatIsoDate | src/data/dataframes.py:36-40 | Formatting a valid in-range date and parsing it back gives the same date |
| Calendar.FormatParseIsoDate | src/data/dataframes.py:36-40 | A string that parses is exactly the zero-padded rendering of the date it parses to, so the model accepts no other shape |
| Dataframes.ParseOrder | src/data/dataframes.py:36-48 | A record parses iff its delivery, creation and update dates all parse. The parsed row keeps the order ID and nested maps, and its derived columns start missing |
| Dataframes.ParseOrderDates | src/data/dataframes.py:36-40 | The three parsed dates render back to the record's original strings |
| Dataframes.ParseOrders | src/data/dataframes.py:36-40 | All records parse iff each does, and the rows correspond one to one with the records |
| Dataframes.OrderRows | src/data/dataframes.py:28-40 | The orders table exists iff the dump has at least one record, every record's dates parse and no order ID repeats. The error is `ColumnCountMismatch` for an empty dump, whose frame has no columns for the nine names; otherwise `DateParse` when some date fails, otherwise `DuplicateOrderId` |
| Dataframes.SortedOrderRows | src/data/dataframes.py:32-33 | Sorting parsed rows with distinct IDs gives the same rows in strictly ascending order-ID order |
| Dataframes.OrderRowsSorted | src/data/dataframes.py:32-33 | The orders table has one row per record, every record's row is in it, every row comes from a record, and order IDs strictly ascend |
| Dataframes.MakeDfOrders | src/data/dataframes.py:6-50 | Fails exactly as the order rows do; otherwise a new table tagged "orders" holding those rows |
| Dataframes.EntriesCount | src/data/dataframes.py:74-77 | Exploding gives exactly as many rows as there are map entries summed over all orders |
| Dataframes.EntriesComeFromOrders | src/data/dataframes.py:74-77 | Every exploded row carries the ID of an order whose map holds that row's key and value |
| Dataframes.OrdersGiveEntries | src/data/dataframes.py:74-77 | Every entry of every order's map appears as an exploded row carrying that order's ID |
| Dataframes.EntriesGroupedByOrder | src/data/dataframes.py:32-33 | Over orders sorted by ID, exploded rows come grouped by non-decreasing order ID |
| Dataframes.EntryKeysUnique | src/data/dataframes.py:122-124 | With distinct order IDs and distinct map keys, the pair (order ID, key) identifies an exploded row, which is the products table's composite index |
| Dataframes.ExplodeMembers | src/data/dataframes.py:74-77 | The accumulation loop builds exactly the concatenation of every order's flattened members map |
| Dataframes.ExplodeProducts | src/data/dataframes.py:116-119 | The accumulation loop builds exactly the concatenation of every order's flattened products map |
| Dataframes.MemberIds | src/data/dataframes.py:80-81 | The member-ID column converts iff every key is an integer literal, giving the parsed integers row by row; otherwise `IntParse` |
| Dataframes.MemberIdsRoundTrip | src/data/dataframes.py:80-81 | Keys that are the decimal renderings of integers convert back to exactly those integers |
| Dataframes.MemberRows | src/data/dataframes.py:74-84 | The members table exists iff there is at least one entry and every key is an integer. Each row has the integer ID, its order's ID, the truthiness of `collected?` and the requests, and no delivery date or value yet |
| Dataframes.MakeDfMembers | src/data/dataframes.py:53-90 | Fails exactly as the member rows do; otherwise a new table tagged "members" holding them |
| Dataframes.DecimalCommaCell | src/data/dataframes.py:128-131 | An exactly empty cell becomes missing; any other keeps its length and characters, with every comma replaced |
| Dataframes.FloatCell | src/data/dataframes.py:128-134 | An empty cell is missing; any other converts iff its comma-replaced text is a decimal number, and fails with `FloatParse` otherwise |
| Dataframes.FloatCellCommaCents | src/data/dataframes.py:128-134 | A decimal-comma amount with two cents digits converts to exactly that many cents |
| Dataframes.ProductRow | src/data/dataframes.py:122-134 | A product row converts iff its five float columns do. `supplier_code` keeps its replaced text uncast, and the row is keyed by (order ID, product ID) |
| Dataframes.ConvertProductRows | src/data/dataframes.py:128-134 | All rows convert iff each does, and they correspond one to one with the entries |
| Dataframes.ProductRows | src/data/dataframes.py:116-134 | The products table exists iff there is at least one entry and every row converts. An empty one lacks the `tax_rate` column |
| Dataframes.MakeDfProducts | src/data/dataframes.py:93-140 | Fails exactly as the product rows do; otherwise a new table tagged "products" holding them |
| Dataframes.DropNestedColumns | src/data/dataframes.py:168 | Every orders row loses its nested maps. Row count, order and name tag are unchanged |
| Dataframes.InitialRows | src/data/dataframes.py:162-166 | The three tables' rows exist iff the orders, the members and the products all convert, and a failure is the first failing stage's error. The orders are the sorted order rows with strictly ascending IDs; members and products have one row per nested map entry |
| Dataframes.InitializeDataframes | src/data/dataframes.py:162-168 | Succeeds exactly when the initial rows do, with the same error otherwise. On success the three tables are new and tagged "orders", "members" and "products". The orders table holds the initial order rows without their nested columns, and the other two hold exactly the initial member and product rows |
| Dataframes.MakeDataframes | src/data/dataframes.py:143-180 | Succeeds iff the initial rows do and every joined member row's order request value does. A first-stage failure keeps its error; a features failure is the error of the first failing joined row. On success products carry their line totals; each orders row, in ascending ID order, is the initial row with its total value and participant count; members are the joined rows, each with its own order request value |
| Frames.Truthy | src/data/dataframes.py:84 | `astype(bool)` of a JSON value: null is false, a number is true iff non-zero, a string iff non-empty |
| Frames.WithoutCompanyAccount | src/analysis/cohort.py:35 | Keeps exactly the rows whose member is not the company account 46 |
| Frames.WithoutCompanyAccountRowByRow | src/analysis/cohort.py:35 | The filter works row by row: it distributes over concatenation, and a single row is kept iff its member is not 46. So the kept rows stay in their order |
| Frames.WithoutCompanyAccountCounts | src/analysis/cohort.py:35 | Every row not of member 46 is kept as many times as it occurs, and rows of member 46 not at all |
| Features.NetTotalPrice | src/data/features.py:62 | The line total is present iff both net price and amount ordered are |
| Features.AddNetTotalPrice | src/data/features.py:62 | Every product row gains its line total, and nothing else changes |
| Features.DeliveryDateOfOrder | src/data/features.py:65-68 | With distinct order IDs, looking up an order's ID gives that order's delivery date |
| Features.JoinDeliveryDate | src/data/features.py:65-68 | The left join never has fewer rows than the members table |
| Features.JoinRowsFromMembers | src/data/features.py:65-68 | Whatever the orders, every joined row is a member row with only its delivery date set |
| Features.JoinKeepsRows | src/data/features.py:65-68 | With distinct order IDs, the left join keeps the number and order of member rows. Each row gains the delivery date of its order, or none without one |
| Features.TotalOrderValue | src/data/features.py:75-76 | An order's total is missing iff no product row has its ID. Otherwise it is whole cents within half a cent of the sum of its rows' line totals |
| Features.TotalOrderValueExact | src/data/features.py:75-76 | When every line total is whole cents, the order total is exactly the sum of its rows' line totals |
| Features.AddTotalOrderValue | src/data/features.py:75-76 | Every order row gains its total, and nothing else changes |
| Features.NumParticipatingMembers | src/data/features.py:79 | An order's participant count is missing iff no member row has its ID, and is at least 1 otherwise |
| Features.ParticipantsPartitionMembers | src/data/features.py:79 | With distinct order IDs, and every member row belonging to some order, the counts summed over all orders equal the number of member rows |
| Features.AddNumParticipatingMembers | src/data/features.py:79 | Every order row gains its participant count, and nothing else changes |
| Features.FilledAmount | src/data/features.py:31-32 | A blank or whitespace-only filled amount counts as 0. Any other is the decimal value of its comma-replaced text, if it has one |
| Features.FilledAmountCommaCents | src/data/features.py:31-32 | A decimal-comma filled amount with two cents digits reads as exactly that many cents |
| Features.NetPriceOf | src/data/features.py:35 | The lookup fails iff no product row has that (order ID, product ID); otherwise it yields the net price of such a row |
| Features.OrderRequestValue | src/data/features.py:24-36 | Succeeds iff every filled amount converts, the order has at least one product row (the lookup selects the order on the first index level, even for no requests) and every requested product is in its order. The error is `FloatParse` if an amount fails, otherwise `MissingProduct`. The value is whole cents within half a cent of the sum of net price times filled amount over the requests |
| Features.WeightedSumAppend | src/data/features.py:36 | The sum of net price times filled amount adds up over the parts of a request list, and a product without a net price adds 0 |
| Features.OrderRequestValueNonNegative | src/data/features.py:24-36 | With no negative prices and no negative amounts, the order request value is not negative |
| Features.ClearOrderRequestValues | src/data/features.py:21 | The column becomes missing for every row, and nothing else changes |
| Features.WriteOrderRequestValues | src/data/features.py:24-39 | On success every row holds its own value, and nothing else changed. On failure, the first failing row's error is returned, rows before it hold their values and rows from it on are untouched |
| Features.AddOrderRequestValues | src/data/features.py:5-41 | As above, with the rows from the failing one on left missing |
| Features.AddFeatures | src/data/features.py:44-84 | Products gain line totals, and orders gain totals and participant counts over the joined member rows. A new "members" table holds the joined rows with their values; on failure, the first failing joined row's error |
| Money.Round2 | src/data/features.py:36 | Rounding to two decimals gives whole cents within half a cent of the input |
| Money.Round2Idempotent | src/data/features.py:76 | Rounding an already rounded value changes nothing |
| Sorting.SortByPermutes | src/data/dataframes.py:33 | Sorting is a permutation of its input |
| Sorting.SortBySorted | src/data/dataframes.py:33 | Sorting gives non-decreasing keys |
| Text.ParseFormatInt | src/data/dataframes.py:80-81 | Integer parsing inverts integer rendering |
| Text.ParseCommaCents | src/data/dataframes.py:130-134 | A decimal-comma amount with two cents digits parses, after comma replacement, to exactly that many cents |
| Cohort.ParseCohortFreq | src/analysis/cohort.py:29-31 | The setting is accepted iff it is "M" (months) or "Q" (quarters) |
| Cohort.PeriodMonotone | src/analysis/cohort.py:74-79 | A later date never falls in an earlier month or quarter |
| Cohort.Deliveries | src/analysis/cohort.py:70-85 | The (member, date) pairs are exactly those of member rows that have a delivery date |
| Cohort.NoCompanyAccount | src/analysis/cohort.py:35 | After the filter, no delivery belongs to member 46 |
| Cohort.EarliestDate | src/analysis/cohort.py:78-79 | A member's earliest date is missing iff they have no delivery. Otherwise it is one of their delivery dates and no later than any of them |
| Cohort.CohortIsFirstPeriod | src/analysis/cohort.py:78-79 | A member's cohort is one of their delivery periods and no later than any of them, so it is the minimum of their delivery periods |
| Cohort.Offset | src/analysis/cohort.py:87-88 | The period number of every delivery is at least 0 |
| Cohort.ActiveWithinCohort | src/analysis/cohort.py:83-93 | The members active in a cell belong to its cohort, and at offset 0 they are exactly the cohort's members |
| Cohort.CohortPivot | src/analysis/cohort.py:83-93 | Every cell's period number is at least 0, and the pivot is empty iff there is no delivery |
| Cohort.PivotCohortSize | src/analysis/cohort.py:83-96 | Every pivot row has an offset-0 cell equal to the cohort's size. Every cell's distinct-member count is positive and at most that size |
| Cohort.Retention | src/analysis/cohort.py:96-97 | The retention matrix has exactly the pivot's cells |
| Cohort.RetentionBounds | src/analysis/cohort.py:96-97 | Retention has the pivot's cells. Each cell is its count divided by its cohort's offset-0 count, lies in (0, 1], and is exactly 1 at offset 0 |
| Cohort.CohortSizesSumToMembers | src/analysis/cohort.py:91-96 | Listing the cohorts once each, their sizes sum to the number of distinct members with a delivery |
| Cohort.MakeRetentionMatrix | src/analysis/cohort.py:45-99 | Fails with `EmptyPivot` iff no member row has a delivery, as `iloc[:, 0]` fails on an empty pivot. Otherwise the result is the retention matrix and the pivot of the rows' deliveries, which have the same cells, all at period numbers of at least 0 |
| Cohort.CohortMain | src/analysis/cohort.py:10-42 | Nothing is computed iff the setting is neither "M" nor "Q". Otherwise the analysis fails iff no member other than 46 has a delivery, and on success the tables are the retention matrix and the pivot of the deliveries of members other than 46, every pivot cell at a period number of at least 0 |
| Binning.CutBin | src/analysis/rfm.py:136-137 | A value gets a bin iff it lies between the first and last edges. Bin b is (edges[b-1], edges[b]], and the first edge itself falls in bin 1 |
| Binning.CutBinMonotone | src/analysis/rfm.py:136-137 | A larger value never gets a smaller bin |
| Binning.QuartileEdges | src/analysis/rfm.py:141-148 | A non-empty column has five quartile edges. They never decrease, and the outer two are the column's smallest and largest values |
| Binning.QCut | src/analysis/rfm.py:141-148 | Quartile binning succeeds iff the column is non-empty and its five edges are distinct, failing with `DuplicateBinEdges` otherwise. On success it gives one label per value and the quartile edges |
| Binning.QCutLabels | src/analysis/rfm.py:141-148 | Each label is the bin of its value among the edges, so it lies in 1..4 |
| Binning.QCutMonotone | src/analysis/rfm.py:141-148 | A larger value never gets a smaller quartile label |
| Binning.QCutConstantColumn | src/analysis/rfm.py:141-148 | A column of equal values is refused with the duplicate-edges error |
| Rfm.ParseRfmFreq | src/analysis/rfm.py:33-35 | The setting is accepted iff it is "W" (weeks) or "M" (months) |
| Rfm.PeriodStart | src/analysis/rfm.py:84-85 | A date's period starts on or before it: a week on the Monday at most six days before, a month on the first day of the date's month |
| Rfm.PeriodSeconds | src/analysis/rfm.py:99-100 | A week is seven days and numpy's month is 2,629,746 seconds, more than 30 days |
| Rfm.Visits | src/analysis/rfm.py:73-89 | The visits are exactly the member rows with a delivery date, a missing value counting as 0 in the sum |
| Rfm.VisitsRowByRow | src/analysis/rfm.py:73-89 | Visits are taken row by row: they distribute over concatenation, and a single row gives one visit iff it has a delivery date. So they keep the rows' order and multiplicity |
| Rfm.Bucket | src/analysis/rfm.py:84-89 | One bucketed row per visit, in order, keeping its member and value, with the start of its period as the date |
| Rfm.WeeklyBucketsShareMonday | src/analysis/rfm.py:84-89 | Two visits fall into the same weekly bucket iff the second lies in the Monday-to-Sunday week of the first |
| Rfm.PeriodEnd | src/analysis/rfm.py:80 | The period end is missing iff there is no visit. Otherwise it is the day of some visit and no visit is later |
| Rfm.DistinctIds | src/analysis/rfm.py:92 | Lists each member ID occurring in the visits exactly once |
| Rfm.TableIdsAscending | src/analysis/rfm.py:92 | The table's index holds each visiting member once, in strictly ascending order |
| Rfm.LatestStart | src/analysis/rfm.py:92-96 | A member's latest period start is missing iff they have no visit. Otherwise it is one of their period starts and no earlier than any of them |
| Rfm.Recency | src/analysis/rfm.py:97-102 | Recency is the number of whole periods in the span, in seconds, from the latest start to the end: the span is at least that many periods and less than one more |
| Rfm.TableRow | src/analysis/rfm.py:88-102 | A member's row: frequency is the number of their distinct period starts, at least 1. Recency is measured from their latest start, and no score is set yet |
| Rfm.MakeTableMembers | src/analysis/rfm.py:77-105 | The table has one row per distinct member other than 46 with a delivery date, in strictly ascending ID order |
| Rfm.MakeTableRow | src/analysis/rfm.py:88-102 | Row k of the table is the row of the k-th visiting member in ascending ID order, with recency measured against the latest delivery of all |
| Rfm.MakeTable | src/analysis/rfm.py:53-108 | Every row's frequency is at least 1, and no row has a score yet |
| Rfm.RecencyNonNegative | src/analysis/rfm.py:80-102 | Every row's recency is at least 0 |
| Rfm.RecencyZeroForLatest | src/analysis/rfm.py:80-102 | The member holding the latest delivery has recency 0 |
| Rfm.MonetaryIsMeanOfPeriodSums | src/analysis/rfm.py:88-96 | For any listing of a member's period starts, each given once: frequency is its length, and monetary value is the mean of the per-period sums over it |
| Rfm.RecencyEdges | src/analysis/rfm.py:131-133 | The recency edges are 0, k/4, k/2, k and infinity, for k = 52 (weekly) or 12 (monthly) |
| Rfm.RScore | src/analysis/rfm.py:131-138 | A recency scores 4 up to k/4 (0 included), 3 up to k/2, 2 up to k and 1 beyond. A negative one has no score |
| Rfm.RScoreMonotone | src/analysis/rfm.py:131-138 | A non-negative recency always scores, and a larger recency never scores higher |
| Rfm.ScoreText | src/analysis/rfm.py:151-152 | A one-digit score renders as that digit |
| Rfm.RfmScoreShape | src/analysis/rfm.py:151-152 | With F and M scores in 1..4 and a non-negative recency, the RFM score is the R, F and M digits in that order, each in '1'..'4' |
| Rfm.Frequencies | src/analysis/rfm.py:141 | The F column is the frequencies, row by row |
| Rfm.MonetaryValues | src/analysis/rfm.py:146 | The M column is the monetary values, row by row |
| Rfm.AddRScores | src/analysis/rfm.py:131-138 | Every row gains its R score, and nothing else changes |
| Rfm.AddScore | src/analysis/rfm.py:111-157 | Succeeds iff both quartile binnings do, returning the R, F and M edges and writing the scores into each row. On failure the columns written before the failing step stay written |
| Rfm.ScoresOfRows | src/analysis/rfm.py:131-148 | F and M scores lie in 1..4 and never decrease with frequency and monetary value. R scores lie in 1..4 and never increase with recency |
| Rfm.EmptyTableFails | src/analysis/rfm.py:77-148 | Without a non-company member with a delivery the table is empty, and scoring it fails |
| Rfm.RfmMain | src/analysis/rfm.py:9-50 | Nothing is computed iff the setting is neither "W" nor "M". Otherwise scoring succeeds iff both binnings do, giving a new table tagged "rfm_table" of scored rows |

## Left out

- Reading the JSON dump (`pd.read_json`) is not modelled. The model takes the order records as already parsed, with nested maps as key/value sequences in map order.
- JSON values are limited to the kinds the tables use: null, booleans, numbers and strings.
- CSV export, plot export and the clock-derived file names are not modelled. `src/data/utils.py` is not part of this model.
- The `plot` functions of both analyses and `get_heatmap_labels` are not modelled: they are rendering. The sum of cohort sizes computed at src/analysis/cohort.py:121 in `plot` appears only as the lemma `Cohort.CohortSizesSumToMembers`.
- `print` calls and the `_metadata` mechanism are not modelled beyond the name tag itself.
- Floating point is not modelled: numbers are exact reals. Rounding to two decimals is exact half-to-even on reals, so results can differ from doubles in the last bit.
- Calendar.ParseIsoDate: accepts only the zero-padded `YYYY-MM-DD` form and fails the run with `DateParse` on every other string. With `format='%Y-%m-%d'`, pandas takes its ISO 8601 path, which is more lenient. It turns `""` and the NaT strings ("NaT", "nan", "NaN") into NaT and keeps the order, as for a null date (see the `Dataframes.ParseOrder` line). It also accepts one-digit months and days ("2020-1-5") and other ISO 8601 forms, such as a time suffix. The model rejects all of these.
- Dataframes.ParseOrder: a null `delivery_date`, `created_at` or `updated_at` is not modelled; the three dates of an order record are always strings. The source keeps such an order with a NaT date, so its member rows get NaT from the join and the cohort and RFM group-bys drop them. In the model every member row of a built table has a delivery date, and the undated branches of `Cohort.Deliveries` and `Rfm.Visits` are reached only from member rows given directly.
- Dataframes.OrderRows: parses dates and checks for duplicate order IDs before sorting, while the source sorts first. The two give the same table and the same error, because neither error carries a row position.
- Features.NetPriceOf: when two product rows share (order ID, product ID), it takes the first one's price, whereas pandas would return both. The products index built from map keys cannot repeat.
- Features.OrderRequestValue: its value is stated as whole cents within half a cent of the weighted sum, not as the exact half-to-even rounding of it. The rounding itself is `Money.Round2`.
- Dataframes.FloatCell, Features.FilledAmount and Dataframes.MemberIds accept only plain decimal notation: an optional sign, ASCII digits and at most one decimal point. Python's `float()` and `int()` also accept exponents, "inf" and "nan", underscores between digits and non-ASCII digits; the model treats such strings as parse failures.
- Dataframes.MemberIds: integers are unbounded. `astype('int')` converts to 64-bit integers and raises for a key outside -2^63 .. 2^63 - 1, which the model converts to a member ID like any other.
- Features.NumParticipatingMembers: counts member rows per order ID as `groupby(...).size()` does. The count is `None` (NaN) for an order with no member rows.
- Cohort.MakeRetentionMatrix: the pivot and the retention matrix are maps from (cohort, period number) to values. Column order and the DataFrame layout are not modelled; a missing cell is an absent key.
- Cohort.CohortMain: returns `None` for an invalid setting, which is where the source prints a message and returns nothing. When no member other than 46 has a delivery, it returns the `EmptyPivot` failure where the source raises an `IndexError`.
- The 'Q' entries of the RFM dictionaries are not modelled, because `rfm.main` never reaches them.
- Binning.QCut: pandas fails on an empty column through its NaN edges. The model reports that as the same `DuplicateBinEdges` error as repeated edges.
- Rfm.ScoreText: a missing score renders as "nan", as `astype(str)` does. Scores are labels 1..4 rather than pandas categoricals.
- Rfm.AddScore: the failure error is a value in the model, where the source raises an exception from `qcut`.
