/**
 * The RFM table: per member (the company account left out), the recency of
 * their last active period, the number of active periods, and the mean of
 * their per-period order values; then the R, F and M scores and the joined
 * three-digit RFM score, written into the table in place.
 */
module Rfm {
  import opened Wrappers
  import opened Text
  import opened Calendar
  import opened Frames
  import opened Sorting
  import opened Binning

  /** The period setting: 'W' (weeks starting Monday) or 'M' (months). */
  datatype RfmFreq = Weekly | Monthly

  /** Only 'W' and 'M' are accepted; anything else stops the analysis. */
  function ParseRfmFreq(s: string): (f: Option<RfmFreq>)
    ensures f == Some(Weekly) <==> s == "W"
    ensures f == Some(Monthly) <==> s == "M"
    ensures f.None? <==> s != "W" && s != "M"
  {
    if s == "W" then Some(Weekly) else if s == "M" then Some(Monthly) else None
  }

  /** `to_period(freq).to_timestamp()`: the day number of the first day of the period holding `d`. */
  function PeriodStart(d: ValidDate, f: RfmFreq): (s: int)
    ensures s <= DayNumber(d)
    ensures f == Weekly ==> DayNumber(d) < s + 7 && Weekday(s) == 0
    ensures f == Monthly ==> DayNumber(d) <= s + 30 && s == DayNumber(d) - d.day + 1
  {
    match f
    case Weekly => WeekStart(DayNumber(d))
    case Monthly => MonthStartDay(d)
  }

  const SecondsPerDay := 86400

  /** The length of one period in seconds: a week, or numpy's mean Gregorian month of 30.436875 days. */
  function PeriodSeconds(f: RfmFreq): (n: nat)
    ensures f == Weekly ==> n > 6 * SecondsPerDay
    ensures n > 30 * SecondsPerDay || f == Weekly
  {
    match f
    case Weekly => 7 * SecondsPerDay
    case Monthly => 2629746
  }

  /** A member row that has a delivery date: who, when, and its order request value. */
  datatype Visit = Visit(memberId: int, date: ValidDate, value: real)

  /** `sum` skips NaN, so a missing order request value adds nothing. */
  function ValueOrZero(v: Option<real>): real {
    match v
    case None => 0.0
    case Some(x) => x
  }

  /** The member rows with a delivery date, in order; `groupby` drops the NaT keys. */
  function Visits(rows: seq<Member>): (r: seq<Visit>)
    ensures |r| <= |rows|
    ensures forall x :: x in r <==> exists m ::
      && m in rows
      && m.deliveryDate == Some(x.date)
      && x == Visit(m.memberId, x.date, ValueOrZero(m.orderRequestValue))
  {
    if rows == [] then []
    else
      var rest := Visits(rows[1..]);
      assert forall m :: m in rows <==> m == rows[0] || m in rows[1..];
      match rows[0].deliveryDate
      case None => rest
      case Some(d) => [Visit(rows[0].memberId, d, ValueOrZero(rows[0].orderRequestValue))] + rest
  }

  /**
   * Visits are taken row by row and keep the order: a concatenation gives
   * the concatenated visits, and a single row gives one visit iff it has a
   * delivery date, so equal rows give equal visits that all count.
   */
  lemma {:induction false} VisitsRowByRow(a: seq<Member>, b: seq<Member>, m: Member)
    ensures Visits(a + b) == Visits(a) + Visits(b)
    ensures Visits([m]) ==
      if m.deliveryDate.Some? then [Visit(m.memberId, m.deliveryDate.value, ValueOrZero(m.orderRequestValue))] else []
  {
    if a == [] {
      assert a + b == b;
    } else {
      assert (a + b)[1..] == a[1..] + b;
      VisitsRowByRow(a[1..], b, m);
    }
    assert [m][1..] == [];
  }

  /** `df.delivery_date.max()`: the latest delivery day, None (NaT) when there is none. */
  function PeriodEnd(visits: seq<Visit>): (r: Option<int>)
    ensures r.None? <==> visits == []
    ensures r.Some? ==> exists i :: 0 <= i < |visits| && DayNumber(visits[i].date) == r.value
    ensures r.Some? ==> forall i :: 0 <= i < |visits| ==> DayNumber(visits[i].date) <= r.value
  {
    if visits == [] then None
    else
      var rest := PeriodEnd(visits[1..]);
      assert forall i :: 0 < i < |visits| ==> visits[i] == visits[1..][i - 1];
      var day := DayNumber(visits[0].date);
      if rest.None? || rest.value <= day then Some(day) else rest
  }

  /** A visit bucketed into its period: `to_period(freq).to_timestamp()` on the delivery date. */
  datatype Bucketed = Bucketed(memberId: int, start: int, value: real)

  function Bucket(visits: seq<Visit>, f: RfmFreq): (b: seq<Bucketed>)
    ensures |b| == |visits|
    ensures forall i :: 0 <= i < |visits| ==> b[i] == Bucketed(visits[i].memberId, PeriodStart(visits[i].date, f), visits[i].value)
  {
    seq(|visits|, i requires 0 <= i < |visits| => Bucketed(visits[i].memberId, PeriodStart(visits[i].date, f), visits[i].value))
  }

  /** Two visits fall in the same weekly bucket iff the second lies in the Monday-to-Sunday week of the first. */
  lemma WeeklyBucketsShareMonday(visits: seq<Visit>, i: int, j: int)
    requires 0 <= i < |visits| && 0 <= j < |visits|
    ensures var b := Bucket(visits, Weekly);
      b[i].start == b[j].start <==> b[i].start <= DayNumber(visits[j].date) < b[i].start + 7
  {
    SameWeek(DayNumber(visits[i].date), DayNumber(visits[j].date));
  }

  /** The distinct member IDs of `b`, each once. */
  function DistinctIds(b: seq<Bucketed>): (ids: seq<int>)
    ensures NoRepeats(ids)
    ensures forall id :: id in ids <==> exists i :: 0 <= i < |b| && b[i].memberId == id
  {
    if b == [] then []
    else
      var rest := DistinctIds(b[1..]);
      assert forall i :: 0 < i < |b| ==> b[i] == b[1..][i - 1];
      if b[0].memberId in rest then rest else [b[0].memberId] + rest
  }

  function IdKey(id: int): real {
    id as real
  }

  /** The index of the table: the distinct member IDs, ascending (`groupby` sorts its keys). */
  function TableIds(b: seq<Bucketed>): seq<int> {
    SortBy(DistinctIds(b), IdKey)
  }

  /** The table index holds every member with a visit once, in strictly ascending order. */
  lemma TableIdsAscending(b: seq<Bucketed>)
    ensures StrictlySortedBy(TableIds(b), IdKey)
    ensures forall id :: id in TableIds(b) <==> exists i :: 0 <= i < |b| && b[i].memberId == id
  {
    var ids := DistinctIds(b);
    assert KeysDistinct(ids, IdKey) by {
      forall i, j | 0 <= i < |ids| && 0 <= j < |ids| && i != j ensures IdKey(ids[i]) != IdKey(ids[j]) {
        if i < j { assert ids[i] != ids[j]; } else { assert ids[j] != ids[i]; }
      }
    }
    SortByStrict(ids, IdKey);
    SortByMembers(ids, IdKey);
  }

  /** The period starts in which member `id` was active. */
  function Starts(b: seq<Bucketed>, id: int): set<int> {
    set i | 0 <= i < |b| && b[i].memberId == id :: b[i].start
  }

  /** `agg({'delivery_date': 'max'})` after bucketing: the start of the member's latest active period. */
  function LatestStart(b: seq<Bucketed>, id: int): (r: Option<int>)
    ensures r.None? <==> forall i :: 0 <= i < |b| ==> b[i].memberId != id
    ensures r.Some? ==> r.value in Starts(b, id)
    ensures r.Some? ==> forall i :: 0 <= i < |b| && b[i].memberId == id ==> b[i].start <= r.value
  {
    if b == [] then None
    else
      var rest := LatestStart(b[1..], id);
      assert forall i :: 0 < i < |b| ==> b[i] == b[1..][i - 1];
      assert forall s :: s in Starts(b[1..], id) ==> s in Starts(b, id) by {
        forall s | s in Starts(b[1..], id) ensures s in Starts(b, id) {
          var i :| 0 <= i < |b[1..]| && b[1..][i].memberId == id && b[1..][i].start == s;
          assert b[i + 1] == b[1..][i];
        }
      }
      if b[0].memberId != id then rest
      else if rest.None? || rest.value <= b[0].start then Some(b[0].start)
      else rest
  }

  /** The sum of member `id`'s order request values. */
  function MemberTotal(b: seq<Bucketed>, id: int): real {
    if b == [] then 0.0
    else (if b[0].memberId == id then b[0].value else 0.0) + MemberTotal(b[1..], id)
  }

  /** `groupby(['delivery_date', 'member_ID']).sum()`: member `id`'s total in the period starting at `s`. */
  function PeriodSum(b: seq<Bucketed>, id: int, s: int): real {
    if b == [] then 0.0
    else (if b[0].memberId == id && b[0].start == s then b[0].value else 0.0) + PeriodSum(b[1..], id, s)
  }

  /** The row of the RFM table and the score columns `add_score` adds (None until written, or NaN). */
  datatype RfmRow = RfmRow(
    memberId: int, recency: int, frequency: nat, monetaryValue: real,
    rScore: Option<nat>, fScore: Option<nat>, mScore: Option<nat>, rfmScore: Option<string>)

  /** Whole periods from `start` to the day `end`, rounded down (`// np.timedelta64(1, freq)`). */
  function Recency(end: int, start: int, f: RfmFreq): (r: int)
    ensures r * PeriodSeconds(f) <= (end - start) * SecondsPerDay < (r + 1) * PeriodSeconds(f)
  {
    var span, period := (end - start) * SecondsPerDay, PeriodSeconds(f);
    var q, m := span / period, span % period;
    assert span == period * q + m && 0 <= m < period;
    q
  }

  /** The table row of member `id`, given the latest delivery day `end` of all. */
  function TableRow(end: int, b: seq<Bucketed>, f: RfmFreq, id: int): (row: RfmRow)
    requires exists i :: 0 <= i < |b| && b[i].memberId == id
    ensures row.memberId == id && row.frequency == |Starts(b, id)|
    ensures row.frequency >= 1
    ensures LatestStart(b, id).Some? && row.recency == Recency(end, LatestStart(b, id).value, f)
    ensures row.rScore.None? && row.fScore.None? && row.mScore.None? && row.rfmScore.None?
  {
    var latest := LatestStart(b, id).value;
    var frequency := |Starts(b, id)|;
    assert latest in Starts(b, id);
    RfmRow(id, Recency(end, latest, f), frequency, MemberTotal(b, id) / frequency as real, None, None, None, None)
  }

  /** The dated member rows of the table, the company account left out. */
  function TableVisits(rows: seq<Member>): seq<Visit> {
    Visits(WithoutCompanyAccount(rows))
  }

  /** `make_table`: one row per member with a delivery, the company account left out. */
  function MakeTable(rows: seq<Member>, f: RfmFreq): (t: seq<RfmRow>)
    ensures forall k :: 0 <= k < |t| ==>
      && t[k].frequency >= 1
      && t[k].rScore.None? && t[k].fScore.None? && t[k].mScore.None? && t[k].rfmScore.None?
  {
    var visits := TableVisits(rows);
    var b := Bucket(visits, f);
    var ids := TableIds(b);
    assert forall k :: 0 <= k < |ids| ==> exists i :: 0 <= i < |b| && b[i].memberId == ids[k] by {
      TableIdsAscending(b);
      assert forall k :: 0 <= k < |ids| ==> ids[k] in ids;
    }
    if visits == [] then [] else RowsOf(PeriodEnd(visits).value, b, f, ids)
  }

  /** The table rows of the members `ids`, each of whom has a bucketed visit. */
  function RowsOf(end: int, b: seq<Bucketed>, f: RfmFreq, ids: seq<int>): (t: seq<RfmRow>)
    requires forall k :: 0 <= k < |ids| ==> exists i :: 0 <= i < |b| && b[i].memberId == ids[k]
    ensures |t| == |ids|
    ensures forall k :: 0 <= k < |t| ==>
      && t[k].frequency >= 1
      && t[k].rScore.None? && t[k].fScore.None? && t[k].mScore.None? && t[k].rfmScore.None?
  {
    seq(|ids|, k requires 0 <= k < |ids| => TableRow(end, b, f, ids[k]))
  }

  /** The member IDs other than the company account's that have a row with a delivery date. */
  function MembersWithDelivery(rows: seq<Member>): set<int> {
    set m | m in rows && m.memberId != CompanyAccount && m.deliveryDate.Some? :: m.memberId
  }

  /** The member IDs of the visits. */
  function VisitorIds(visits: seq<Visit>): set<int> {
    set i | 0 <= i < |visits| :: visits[i].memberId
  }

  /** The first visit's member is among the visitors. */
  lemma FirstVisitor(visits: seq<Visit>)
    requires visits != []
    ensures visits[0].memberId in VisitorIds(visits)
  {
    assert 0 <= 0 < |visits|;
  }

  /** The visits of the table come from exactly the members with a delivery, the company account left out. */
  lemma VisitsOfMembers(rows: seq<Member>)
    ensures VisitorIds(TableVisits(rows)) == MembersWithDelivery(rows)
  {
    var kept := WithoutCompanyAccount(rows);
    var visits := Visits(kept);
    forall id | id in MembersWithDelivery(rows) ensures id in VisitorIds(visits) {
      var m :| m in rows && m.memberId != CompanyAccount && m.deliveryDate.Some? && m.memberId == id;
      assert m in kept;
      var x := Visit(m.memberId, m.deliveryDate.value, ValueOrZero(m.orderRequestValue));
      assert x in visits;
      var i :| 0 <= i < |visits| && visits[i] == x;
    }
    forall id | id in VisitorIds(visits) ensures id in MembersWithDelivery(rows) {
      var i :| 0 <= i < |visits| && visits[i].memberId == id;
      assert visits[i] in visits;
      var m :| m in kept && m.deliveryDate == Some(visits[i].date)
        && visits[i] == Visit(m.memberId, visits[i].date, ValueOrZero(m.orderRequestValue));
      assert m in rows;
    }
  }

  /** The member IDs of the table's rows. */
  function RowIds(t: seq<RfmRow>): set<int> {
    set k | 0 <= k < |t| :: t[k].memberId
  }

  /** Row `k` of the table is the row of the `k`-th member ID in ascending order. */
  lemma MakeTableRow(rows: seq<Member>, f: RfmFreq, k: int)
    requires 0 <= k < |MakeTable(rows, f)|
    ensures var visits := TableVisits(rows); var b := Bucket(visits, f);
      && visits != [] && k < |TableIds(b)| && TableIds(b)[k] in TableIds(b)
      && (exists i :: 0 <= i < |b| && b[i].memberId == TableIds(b)[k])
      && MakeTable(rows, f)[k] == TableRow(PeriodEnd(visits).value, b, f, TableIds(b)[k])
  {
    TableIdsAscending(Bucket(TableVisits(rows), f));
  }

  /** The table's rows carry the sorted distinct member IDs of the bucketed visits, one each. */
  lemma MakeTableIds(rows: seq<Member>, f: RfmFreq)
    ensures var ids := TableIds(Bucket(TableVisits(rows), f));
      && |MakeTable(rows, f)| == |ids|
      && forall k :: 0 <= k < |ids| ==> MakeTable(rows, f)[k].memberId == ids[k]
  {
    var visits := TableVisits(rows);
    var b := Bucket(visits, f);
    if visits == [] {
      assert TableIds(b) == DistinctIds(b) == [] by { SortByMembers(DistinctIds(b), IdKey); }
    }
  }

  /**
   * The table has exactly one row per distinct member ID other than the
   * company account that has a delivery, ascending by member ID.
   */
  lemma MakeTableMembers(rows: seq<Member>, f: RfmFreq)
    ensures forall i, j :: 0 <= i < j < |MakeTable(rows, f)| ==> MakeTable(rows, f)[i].memberId < MakeTable(rows, f)[j].memberId
    ensures RowIds(MakeTable(rows, f)) == MembersWithDelivery(rows)
  {
    TableIdsAscending(Bucket(TableVisits(rows), f));
    MakeTableIds(rows, f);
    VisitsOfMembers(rows);
    TableRowIds(rows, f);
  }

  /** The table's member IDs are those of the visits it was built from. */
  lemma TableRowIds(rows: seq<Member>, f: RfmFreq)
    ensures RowIds(MakeTable(rows, f)) == VisitorIds(TableVisits(rows))
  {
    var visits := TableVisits(rows);
    MakeTableIds(rows, f);
    TableIdsOfVisits(visits, f);
    RowIdsOf(MakeTable(rows, f), TableIds(Bucket(visits, f)), VisitorIds(visits));
  }

  /** The sorted distinct IDs of the bucketed visits are the IDs of the visitors. */
  lemma TableIdsOfVisits(visits: seq<Visit>, f: RfmFreq)
    ensures forall id :: id in TableIds(Bucket(visits, f)) <==> id in VisitorIds(visits)
  {
    var b := Bucket(visits, f);
    TableIdsAscending(b);
    forall id ensures id in TableIds(b) <==> id in VisitorIds(visits) {
      if id in VisitorIds(visits) {
        var i :| 0 <= i < |visits| && visits[i].memberId == id;
        assert b[i].memberId == id;
      }
      if id in TableIds(b) {
        var i :| 0 <= i < |b| && b[i].memberId == id;
        assert visits[i].memberId == id;
      }
    }
  }

  /** Rows that carry, one each, the IDs `ids` of the set `s` have exactly the IDs of `s`. */
  lemma RowIdsOf(t: seq<RfmRow>, ids: seq<int>, s: set<int>)
    requires |t| == |ids| && forall k :: 0 <= k < |ids| ==> t[k].memberId == ids[k]
    requires forall id :: id in ids <==> id in s
    ensures RowIds(t) == s
  {
    forall id | id in s ensures id in RowIds(t) {
      assert id in ids;
      var k :| 0 <= k < |ids| && ids[k] == id;
      assert t[k].memberId == id;
    }
    forall id | id in RowIds(t) ensures id in s {
      var k :| 0 <= k < |t| && t[k].memberId == id;
      assert ids[k] in ids;
    }
  }

  /** A member's latest period starts no later than the latest delivery of all. */
  lemma LatestStartBeforeEnd(visits: seq<Visit>, f: RfmFreq, id: int)
    requires LatestStart(Bucket(visits, f), id).Some?
    ensures PeriodEnd(visits).Some? && LatestStart(Bucket(visits, f), id).value <= PeriodEnd(visits).value
  {
    var b := Bucket(visits, f);
    var s := LatestStart(b, id).value;
    var i :| 0 <= i < |b| && b[i].memberId == id && b[i].start == s;
  }

  /** Recency is never negative. */
  lemma RecencyNonNegative(rows: seq<Member>, f: RfmFreq, k: int)
    requires 0 <= k < |MakeTable(rows, f)|
    ensures MakeTable(rows, f)[k].recency >= 0
  {
    MakeTableRow(rows, f, k);
    var visits := TableVisits(rows);
    var b := Bucket(visits, f);
    var id := TableIds(b)[k];
    LatestStartBeforeEnd(visits, f, id);
    RecencyOfSpan(PeriodEnd(visits).value, LatestStart(b, id).value, f);
  }

  /** Whole periods over a non-negative span are never negative. */
  lemma RecencyOfSpan(end: int, start: int, f: RfmFreq)
    requires start <= end
    ensures Recency(end, start, f) >= 0
  {
    assert (end - start) * SecondsPerDay >= 0;
  }

  /** Less than 31 days is less than one period, so it rounds down to no period at all. */
  lemma RecencyWithinPeriod(end: int, start: int, f: RfmFreq)
    requires start <= end <= start + 30
    requires f == Weekly ==> end < start + 7
    ensures Recency(end, start, f) == 0
  {
    assert 0 <= (end - start) * SecondsPerDay < PeriodSeconds(f);
  }

  /** The member with the latest delivery of all has recency 0. */
  lemma RecencyZeroForLatest(rows: seq<Member>, f: RfmFreq, k: int, i: int)
    requires 0 <= k < |MakeTable(rows, f)|
    requires 0 <= i < |TableVisits(rows)| && TableVisits(rows)[i].memberId == MakeTable(rows, f)[k].memberId
    requires Some(DayNumber(TableVisits(rows)[i].date)) == PeriodEnd(TableVisits(rows))
    ensures MakeTable(rows, f)[k].recency == 0
  {
    MakeTableRow(rows, f, k);
    var visits := TableVisits(rows);
    var b := Bucket(visits, f);
    var id := TableIds(b)[k];
    var end, latest := PeriodEnd(visits).value, LatestStart(b, id).value;
    LatestStartBeforeEnd(visits, f, id);
    assert b[i].start == PeriodStart(visits[i].date, f) <= latest;
    RecencyWithinPeriod(end, latest, f);
  }

  /** The per-period sums of member `id` over the period starts `ss`, added up. */
  function SumOver(b: seq<Bucketed>, id: int, ss: seq<int>): real {
    if ss == [] then 0.0 else PeriodSum(b, id, ss[0]) + SumOver(b, id, ss[1..])
  }

  /** How often `x` occurs in `ss`. */
  function Occurrences(ss: seq<int>, x: int): nat {
    if ss == [] then 0 else (if ss[0] == x then 1 else 0) + Occurrences(ss[1..], x)
  }

  lemma {:induction false} OccursOnce(ss: seq<int>, x: int)
    requires NoRepeats(ss)
    ensures Occurrences(ss, x) == (if x in ss then 1 else 0)
  {
    if ss != [] {
      assert NoRepeats(ss[1..]);
      OccursOnce(ss[1..], x);
      assert x in ss <==> x == ss[0] || x in ss[1..];
      assert ss[0] !in ss[1..];
    }
  }

  /** The value of one row, counted once per occurrence of its period in `ss`. */
  function Counted(ss: seq<int>, row: Bucketed, id: int): real {
    if row.memberId == id then Occurrences(ss, row.start) as real * row.value else 0.0
  }

  lemma CountedStep(ss: seq<int>, row: Bucketed, id: int)
    requires ss != []
    ensures Counted(ss, row, id)
      == (if row.memberId == id && row.start == ss[0] then row.value else 0.0) + Counted(ss[1..], row, id)
  {
    if row.memberId == id {
      var m := Occurrences(ss[1..], row.start);
      if row.start == ss[0] {
        assert Occurrences(ss, row.start) == 1 + m;
        assert (1 + m) as real * row.value == row.value + m as real * row.value;
      }
    }
  }

  /** Taking off the first row takes its value off once per listed occurrence of its period. */
  lemma {:induction false} SumOverStep(b: seq<Bucketed>, id: int, ss: seq<int>)
    requires b != []
    ensures SumOver(b, id, ss) == SumOver(b[1..], id, ss) + Counted(ss, b[0], id)
  {
    if ss != [] {
      SumOverStep(b, id, ss[1..]);
      CountedStep(ss, b[0], id);
    } else {
      assert Counted(ss, b[0], id) == 0.0;
    }
  }

  lemma {:induction false} SumOverEmpty(id: int, ss: seq<int>)
    ensures SumOver([], id, ss) == 0.0
  {
    if ss != [] {
      SumOverEmpty(id, ss[1..]);
    }
  }

  /** Summing the per-period sums over all active periods, each once, gives the member's total. */
  lemma {:induction false} SumOverTotal(b: seq<Bucketed>, id: int, ss: seq<int>)
    requires NoRepeats(ss)
    requires forall i :: 0 <= i < |b| && b[i].memberId == id ==> b[i].start in ss
    ensures SumOver(b, id, ss) == MemberTotal(b, id)
  {
    if b == [] {
      SumOverEmpty(id, ss);
    } else {
      assert forall i :: 0 < i < |b| ==> b[i] == b[1..][i - 1];
      SumOverTotal(b[1..], id, ss);
      SumOverStep(b, id, ss);
      OccursOnce(ss, b[0].start);
    }
  }

  /**
   * The monetary value is the mean of the member's per-period sums: for any
   * listing of the member's active periods, each once, their sums divided by
   * their number.
   */
  lemma MonetaryIsMeanOfPeriodSums(rows: seq<Member>, f: RfmFreq, k: int, ss: seq<int>)
    requires 0 <= k < |MakeTable(rows, f)|
    requires NoRepeats(ss)
    requires (set s | s in ss) == Starts(Bucket(TableVisits(rows), f), MakeTable(rows, f)[k].memberId)
    ensures |ss| == MakeTable(rows, f)[k].frequency
    ensures MakeTable(rows, f)[k].monetaryValue
      == SumOver(Bucket(TableVisits(rows), f), MakeTable(rows, f)[k].memberId, ss) / |ss| as real
  {
    MakeTableRow(rows, f, k);
    var b := Bucket(TableVisits(rows), f);
    var id := MakeTable(rows, f)[k].memberId;
    NoRepeatsCardinality(ss);
    forall i | 0 <= i < |b| && b[i].memberId == id ensures b[i].start in ss {
      assert b[i].start in Starts(b, id);
    }
    SumOverTotal(b, id, ss);
  }

  /** Periods per year, as the recency edges scale them. */
  function PeriodsPerYear(f: RfmFreq): real {
    match f
    case Weekly => 52.0
    case Monthly => 12.0
  }

  /** The recency edges scaled to the period: 0, k/4, k/2, k and infinity, k periods a year. */
  function RecencyEdges(f: RfmFreq): (e: seq<Bound>)
    ensures |e| == 5 && e[0] == Finite(0.0) && e[4] == Infinity
  {
    var k := PeriodsPerYear(f);
    [Finite(0.0), Finite(0.25 * k), Finite(0.5 * k), Finite(k), Infinity]
  }

  /**
   * `pd.cut(recency, bins=r_range, labels=[4, 3, 2, 1], include_lowest=True)`:
   * 4 up to a quarter year, 3 up to half a year, 2 up to a year, 1 beyond,
   * NaN for a negative recency.
   */
  function RScore(recency: int, f: RfmFreq): (r: Option<nat>)
    ensures var x, k := recency as real, PeriodsPerYear(f);
      && (r.None? <==> x < 0.0)
      && (r == Some(4) <==> 0.0 <= x <= 0.25 * k)
      && (r == Some(3) <==> 0.25 * k < x <= 0.5 * k)
      && (r == Some(2) <==> 0.5 * k < x <= k)
      && (r == Some(1) <==> k < x)
  {
    match CutBin(RecencyEdges(f), recency as real)
    case None => None
    case Some(b) => Some(5 - b)
  }

  /** A longer time since the last period never raises the recency score. */
  lemma RScoreMonotone(x: int, y: int, f: RfmFreq)
    requires 0 <= x <= y
    ensures RScore(x, f).Some? && RScore(y, f).Some?
    ensures RScore(y, f).value <= RScore(x, f).value
  {
    CutBinMonotone(RecencyEdges(f), x as real, y as real);
  }

  /** `astype(str)` of a score: its digits, or "nan" where it is missing. */
  function ScoreText(score: Option<nat>): (s: string)
    ensures score.Some? && score.value < 10 ==> s == [DigitChar(score.value)]
  {
    match score
    case None => "nan"
    case Some(d) => NatToDigits(d)
  }

  /** The row with its four score columns written. */
  function ScoreRow(row: RfmRow, f: RfmFreq, fLabel: nat, mLabel: nat): RfmRow {
    var r := RScore(row.recency, f);
    row.(rScore := r, fScore := Some(fLabel), mScore := Some(mLabel),
         rfmScore := Some(ScoreText(r) + ScoreText(Some(fLabel)) + ScoreText(Some(mLabel))))
  }

  /** A score of 1..4. */
  predicate IsScore(x: nat) {
    1 <= x <= 4
  }

  /**
   * With every score in 1..4, the RFM score is three characters: the R, F and
   * M digits, in that order.
   */
  lemma RfmScoreShape(row: RfmRow, f: RfmFreq, fLabel: nat, mLabel: nat)
    requires row.recency >= 0 && IsScore(fLabel) && IsScore(mLabel)
    ensures var s := ScoreRow(row, f, fLabel, mLabel);
      && s.rScore.Some? && IsScore(s.rScore.value)
      && s.rfmScore == Some([DigitChar(s.rScore.value), DigitChar(fLabel), DigitChar(mLabel)])
      && forall c :: c in s.rfmScore.value ==> '1' <= c <= '4'
  {
    var r := RScore(row.recency, f);
    assert r.Some? && IsScore(r.value);
    assert ScoreText(r) == [DigitChar(r.value)];
    assert ScoreText(Some(fLabel)) == [DigitChar(fLabel)];
    assert ScoreText(Some(mLabel)) == [DigitChar(mLabel)];
    var text := [DigitChar(r.value)] + [DigitChar(fLabel)] + [DigitChar(mLabel)];
    assert text == [DigitChar(r.value), DigitChar(fLabel), DigitChar(mLabel)];
    assert ScoreRow(row, f, fLabel, mLabel).rfmScore == Some(text);
  }

  /** The column the F score bins. */
  function Frequencies(rows: seq<RfmRow>): (v: seq<real>)
    ensures |v| == |rows| && forall i :: 0 <= i < |rows| ==> v[i] == rows[i].frequency as real
  {
    seq(|rows|, i requires 0 <= i < |rows| => rows[i].frequency as real)
  }

  /** The column the M score bins. */
  function MonetaryValues(rows: seq<RfmRow>): (v: seq<real>)
    ensures |v| == |rows| && forall i :: 0 <= i < |rows| ==> v[i] == rows[i].monetaryValue
  {
    seq(|rows|, i requires 0 <= i < |rows| => rows[i].monetaryValue)
  }

  /** The edges behind the three scores (`bin_info`). */
  datatype BinInfo = BinInfo(r: seq<Bound>, f: seq<real>, m: seq<real>)

  /** Writes the recency score into every row. */
  method AddRScores(t: Frame<RfmRow>, f: RfmFreq)
    modifies t
    ensures t.name == old(t.name) && |t.rows| == |old(t.rows)|
    ensures forall i :: 0 <= i < |t.rows| ==> t.rows[i] == old(t.rows)[i].(rScore := RScore(old(t.rows)[i].recency, f))
  {
    var rows := t.rows;
    t.rows := seq(|rows|, i requires 0 <= i < |rows| => rows[i].(rScore := RScore(rows[i].recency, f)));
  }

  /**
   * `add_score`: writes r_score, then f_score and m_score from the quartiles
   * of their columns, then the joined rfm_score, into the table in place.
   * A failing `qcut` leaves the columns written before it.
   */
  method AddScore(t: Frame<RfmRow>, f: RfmFreq) returns (r: Result<BinInfo>)
    modifies t
    ensures t.name == old(t.name) && |t.rows| == |old(t.rows)|
    ensures var fq, mq := QCut(Frequencies(old(t.rows))), QCut(MonetaryValues(old(t.rows)));
      && (r.Success? <==> fq.Success? && mq.Success?)
      && (r.Failure? ==> r.error == DuplicateBinEdges)
    ensures var fq, mq := QCut(Frequencies(old(t.rows))), QCut(MonetaryValues(old(t.rows)));
      r.Success? ==>
        && r.value == BinInfo(RecencyEdges(f), fq.value.edges, mq.value.edges)
        && forall i :: 0 <= i < |t.rows| ==> t.rows[i] == ScoreRow(old(t.rows)[i], f, fq.value.labels[i], mq.value.labels[i])
    ensures QCut(Frequencies(old(t.rows))).Failure? ==>
      forall i :: 0 <= i < |t.rows| ==> t.rows[i] == old(t.rows)[i].(rScore := RScore(old(t.rows)[i].recency, f))
    ensures var fq := QCut(Frequencies(old(t.rows)));
      fq.Success? && QCut(MonetaryValues(old(t.rows))).Failure? ==>
        forall i :: 0 <= i < |t.rows| ==> t.rows[i] == old(t.rows)[i].(rScore := RScore(old(t.rows)[i].recency, f), fScore := Some(fq.value.labels[i]))
  {
    var before := t.rows;
    AddRScores(t, f);
    assert Frequencies(t.rows) == Frequencies(before);
    var fq := QCut(Frequencies(t.rows));
    if fq.Failure? {
      return Failure(fq.error);
    }
    var withR := t.rows;
    t.rows := seq(|withR|, i requires 0 <= i < |withR| => withR[i].(fScore := Some(fq.value.labels[i])));
    assert MonetaryValues(t.rows) == MonetaryValues(before);
    var mq := QCut(MonetaryValues(t.rows));
    if mq.Failure? {
      return Failure(mq.error);
    }
    var withF := t.rows;
    t.rows := seq(|withF|, i requires 0 <= i < |withF| =>
      withF[i].(mScore := Some(mq.value.labels[i]),
                rfmScore := Some(ScoreText(withF[i].rScore) + ScoreText(withF[i].fScore) + ScoreText(Some(mq.value.labels[i])))));
    r := Success(BinInfo(RecencyEdges(f), fq.value.edges, mq.value.edges));
  }

  /**
   * On any scored table, the F and M scores lie in 1..4 and never decrease as
   * frequency and monetary value grow; the R score of a non-negative recency
   * lies in 1..4 and never increases as recency grows.
   */
  lemma ScoresOfRows(t: seq<RfmRow>, f: RfmFreq, i: int, j: int)
    requires QCut(Frequencies(t)).Success? && QCut(MonetaryValues(t)).Success?
    requires 0 <= i < |t| && 0 <= j < |t|
    requires t[i].recency >= 0 && t[j].recency >= 0
    ensures var fl, ml := QCut(Frequencies(t)).value.labels, QCut(MonetaryValues(t)).value.labels;
      && IsScore(fl[i]) && IsScore(ml[i])
      && (t[i].frequency <= t[j].frequency ==> fl[i] <= fl[j])
      && (t[i].monetaryValue <= t[j].monetaryValue ==> ml[i] <= ml[j])
    ensures RScore(t[i].recency, f).Some? && IsScore(RScore(t[i].recency, f).value)
    ensures t[i].recency <= t[j].recency ==> RScore(t[j].recency, f).value <= RScore(t[i].recency, f).value
  {
    QCutLabels(Frequencies(t), i);
    QCutLabels(MonetaryValues(t), i);
    if t[i].frequency <= t[j].frequency {
      QCutMonotone(Frequencies(t), i, j);
    }
    if t[i].monetaryValue <= t[j].monetaryValue {
      QCutMonotone(MonetaryValues(t), i, j);
    }
    if t[i].recency <= t[j].recency {
      RScoreMonotone(t[i].recency, t[j].recency, f);
    }
  }

  /**
   * Without any member (other than the company account) with a delivery the
   * table is empty, and scoring it fails: an empty column has NaN edges.
   */
  lemma EmptyTableFails(rows: seq<Member>, f: RfmFreq)
    requires MembersWithDelivery(rows) == {}
    ensures MakeTable(rows, f) == []
    ensures QCut(Frequencies(MakeTable(rows, f))) == Failure(DuplicateBinEdges)
  {
    VisitsOfMembers(rows);
    var visits := TableVisits(rows);
    if visits != [] {
      FirstVisitor(visits);
      assert false;
    }
  }

  /**
   * `rfm.main`: validate the period setting, build the table tagged
   * "rfm_table", and score it; a failing `qcut` is the error.
   */
  method RfmMain(rows: seq<Member>, freq: string) returns (r: Option<Result<Frame<RfmRow>>>)
    ensures r.None? <==> freq != "W" && freq != "M"
    ensures r.Some? ==> var f := ParseRfmFreq(freq).value; var t := MakeTable(rows, f);
      r.value.Success? <==> QCut(Frequencies(t)).Success? && QCut(MonetaryValues(t)).Success?
    ensures r.Some? && r.value.Success? ==> var f := ParseRfmFreq(freq).value; var t := MakeTable(rows, f);
      && fresh(r.value.value) && r.value.value.name == "rfm_table" && |r.value.value.rows| == |t|
      && (forall i :: 0 <= i < |t| ==>
            r.value.value.rows[i] == ScoreRow(t[i], f, QCut(Frequencies(t)).value.labels[i], QCut(MonetaryValues(t)).value.labels[i]))
  {
    var parsed := ParseRfmFreq(freq);
    if parsed.None? {
      return None;
    }
    var f := parsed.value;
    var table := new Frame("rfm_table", MakeTable(rows, f));
    var scored := AddScore(table, f);
    if scored.Failure? {
      return Some(Failure(scored.error));
    }
    return Some(Success(table));
  }
}
