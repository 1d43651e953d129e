/**
 * Cohort retention. Each member's cohort is the period (month or quarter) of
 * their first delivery; the pivot counts, for each cohort and each number of
 * periods since it, the distinct members of that cohort who had a delivery
 * then; the retention matrix divides each pivot row by its first column.
 */
module Cohort {
  import opened Wrappers
  import opened Calendar
  import opened Frames
  import opened Sorting

  /** The cohort period setting: 'M' (months) or 'Q' (quarters). */
  datatype CohortFreq = Monthly | Quarterly

  /** Only 'M' and 'Q' are accepted; anything else stops the analysis. */
  function ParseCohortFreq(s: string): (f: Option<CohortFreq>)
    ensures f == Some(Monthly) <==> s == "M"
    ensures f == Some(Quarterly) <==> s == "Q"
    ensures f.None? <==> s != "M" && s != "Q"
  {
    if s == "M" then Some(Monthly) else if s == "Q" then Some(Quarterly) else None
  }

  /** `dt.to_period(freq)`, as a count of periods. */
  function Period(d: ValidDate, f: CohortFreq): int {
    match f
    case Monthly => MonthIndex(d)
    case Quarterly => QuarterIndex(d)
  }

  /** An earlier timestamp never falls in a later period. */
  lemma PeriodMonotone(a: ValidDate, b: ValidDate, f: CohortFreq)
    requires DayNumber(a) <= DayNumber(b)
    ensures Period(a, f) <= Period(b, f)
  {
    MonthIndexMonotone(a, b);
  }

  /** A delivery a member took part in: the (member_ID, delivery_date) pair of a member row. */
  datatype Delivery = Delivery(memberId: int, date: ValidDate)

  /**
   * The (member_ID, delivery_date) pairs of the member rows that have a
   * delivery date; `groupby` drops the rows whose date is NaT.
   */
  function Deliveries(rows: seq<Member>): (r: seq<Delivery>)
    ensures forall x :: x in r <==> exists m :: m in rows && m.memberId == x.memberId && m.deliveryDate == Some(x.date)
  {
    if rows == [] then []
    else
      var rest := Deliveries(rows[1..]);
      assert forall m :: m in rows <==> m == rows[0] || m in rows[1..];
      match rows[0].deliveryDate
      case None => rest
      case Some(d) => [Delivery(rows[0].memberId, d)] + rest
  }

  /** The company account has no deliveries once its rows are filtered out. */
  lemma NoCompanyAccount(rows: seq<Member>)
    ensures forall x :: x in Deliveries(WithoutCompanyAccount(rows)) ==> x.memberId != CompanyAccount
  {
  }

  /** The earliest delivery date of member `id`: `groupby('member_ID')['delivery_date'].transform('min')`. */
  function EarliestDate(acts: seq<Delivery>, id: int): (r: Option<ValidDate>)
    ensures r.None? <==> forall i :: 0 <= i < |acts| ==> acts[i].memberId != id
    ensures r.Some? ==> exists i :: 0 <= i < |acts| && acts[i].memberId == id && acts[i].date == r.value
    ensures r.Some? ==> forall i :: 0 <= i < |acts| && acts[i].memberId == id ==> DayNumber(r.value) <= DayNumber(acts[i].date)
  {
    if acts == [] then None
    else
      var rest := EarliestDate(acts[1..], id);
      assert forall i :: 0 <= i < |acts[1..]| ==> acts[1..][i] == acts[i + 1];
      if acts[0].memberId != id then rest
      else if rest.None? || DayNumber(acts[0].date) <= DayNumber(rest.value) then Some(acts[0].date)
      else rest
  }

  /** The cohort of member `id`: the period of their earliest delivery. */
  function CohortOf(acts: seq<Delivery>, f: CohortFreq, id: int): int {
    match EarliestDate(acts, id)
    case None => 0
    case Some(d) => Period(d, f)
  }

  /** A member's cohort is the smallest of their delivery periods, and it is one of them. */
  lemma CohortIsFirstPeriod(acts: seq<Delivery>, f: CohortFreq, i: int)
    requires 0 <= i < |acts|
    ensures CohortOf(acts, f, acts[i].memberId) <= Period(acts[i].date, f)
    ensures exists j ::
      && 0 <= j < |acts|
      && acts[j].memberId == acts[i].memberId
      && Period(acts[j].date, f) == CohortOf(acts, f, acts[i].memberId)
  {
    var first := EarliestDate(acts, acts[i].memberId).value;
    PeriodMonotone(first, acts[i].date, f);
  }

  /** `period_number`: the periods from the member's cohort to this delivery, never negative. */
  function Offset(acts: seq<Delivery>, f: CohortFreq, i: int): (o: int)
    requires 0 <= i < |acts|
    ensures o >= 0
  {
    CohortIsFirstPeriod(acts, f, i);
    Period(acts[i].date, f) - CohortOf(acts, f, acts[i].memberId)
  }

  /** The (cohort, period_number) cells that have at least one delivery. */
  function Cells(acts: seq<Delivery>, f: CohortFreq): set<(int, int)> {
    set i | 0 <= i < |acts| :: (CohortOf(acts, f, acts[i].memberId), Offset(acts, f, i))
  }

  /** The distinct members of cohort `c` with a delivery `k` periods after it. */
  function ActiveMembers(acts: seq<Delivery>, f: CohortFreq, c: int, k: int): set<int> {
    set i | 0 <= i < |acts| && CohortOf(acts, f, acts[i].memberId) == c && Offset(acts, f, i) == k :: acts[i].memberId
  }

  /** The members whose cohort is `c`. */
  function CohortMembers(acts: seq<Delivery>, f: CohortFreq, c: int): set<int> {
    set i | 0 <= i < |acts| && CohortOf(acts, f, acts[i].memberId) == c :: acts[i].memberId
  }

  /** `nunique` per (cohort, delivery period), pivoted: a missing cell is a NaN in the table. */
  function CohortPivot(acts: seq<Delivery>, f: CohortFreq): (p: map<(int, int), nat>)
    ensures forall cell :: cell in p ==> cell.1 >= 0
    ensures p.Keys == {} <==> acts == []
  {
    CellsShape(acts, f);
    map cell | cell in Cells(acts, f) :: |ActiveMembers(acts, f, cell.0, cell.1)|
  }

  /** Every cell has a period number of at least 0, and there is a cell iff there is a delivery. */
  lemma CellsShape(acts: seq<Delivery>, f: CohortFreq)
    ensures forall cell :: cell in Cells(acts, f) ==> cell.1 >= 0
    ensures Cells(acts, f) == {} <==> acts == []
  {
    assert acts != [] ==> (CohortOf(acts, f, acts[0].memberId), Offset(acts, f, 0)) in Cells(acts, f);
  }

  /** Every offset of a cohort counts only members of that cohort, all of them active at offset 0. */
  lemma ActiveWithinCohort(acts: seq<Delivery>, f: CohortFreq, c: int, k: int)
    ensures ActiveMembers(acts, f, c, k) <= CohortMembers(acts, f, c)
    ensures CohortMembers(acts, f, c) == ActiveMembers(acts, f, c, 0)
  {
    forall id | id in CohortMembers(acts, f, c) ensures id in ActiveMembers(acts, f, c, 0) {
      var i :| 0 <= i < |acts| && CohortOf(acts, f, acts[i].memberId) == c && acts[i].memberId == id;
      CohortIsFirstPeriod(acts, f, i);
      var j :| 0 <= j < |acts| && acts[j].memberId == id && Period(acts[j].date, f) == c;
      assert Offset(acts, f, j) == 0;
    }
  }

  /**
   * Every cohort row of the pivot has an offset-0 cell, and that cell holds
   * the cohort size; every cell of the row is at most that size.
   */
  lemma PivotCohortSize(acts: seq<Delivery>, f: CohortFreq, cell: (int, int))
    requires cell in CohortPivot(acts, f)
    ensures (cell.0, 0) in CohortPivot(acts, f)
    ensures CohortPivot(acts, f)[(cell.0, 0)] == |CohortMembers(acts, f, cell.0)|
    ensures 0 < CohortPivot(acts, f)[cell] <= CohortPivot(acts, f)[(cell.0, 0)]
  {
    var c, k := cell.0, cell.1;
    var i :| 0 <= i < |acts| && cell == (CohortOf(acts, f, acts[i].memberId), Offset(acts, f, i));
    CohortRowStarts(acts, f, i);
    assert acts[i].memberId in ActiveMembers(acts, f, c, k);
    ActiveWithinCohort(acts, f, c, k);
    SubsetSize(ActiveMembers(acts, f, c, k), ActiveMembers(acts, f, c, 0));
  }

  /** The cohort of every delivery's member has a cell at offset 0. */
  lemma CohortRowStarts(acts: seq<Delivery>, f: CohortFreq, i: int)
    requires 0 <= i < |acts|
    ensures (CohortOf(acts, f, acts[i].memberId), 0) in Cells(acts, f)
  {
    CohortIsFirstPeriod(acts, f, i);
    var j :| 0 <= j < |acts| && acts[j].memberId == acts[i].memberId && Period(acts[j].date, f) == CohortOf(acts, f, acts[i].memberId);
    assert Offset(acts, f, j) == 0;
  }

  lemma SubsetSize(a: set<int>, b: set<int>)
    requires a <= b
    ensures |a| <= |b|
  {
    assert b == a + (b - a);
  }

  /** `cohort_pivot.div(cohort_pivot.iloc[:, 0], axis=0)`: each cell over its row's offset-0 cell. */
  function Retention(acts: seq<Delivery>, f: CohortFreq): (r: map<(int, int), real>)
    ensures r.Keys == CohortPivot(acts, f).Keys
  {
    var pivot := CohortPivot(acts, f);
    PivotRowsStart(acts, f);
    map cell | cell in pivot :: pivot[cell] as real / pivot[(cell.0, 0)] as real
  }

  /** Every row of the pivot has a positive offset-0 cell to divide by. */
  lemma PivotRowsStart(acts: seq<Delivery>, f: CohortFreq)
    ensures forall cell :: cell in CohortPivot(acts, f) ==>
      (cell.0, 0) in CohortPivot(acts, f) && CohortPivot(acts, f)[(cell.0, 0)] > 0
  {
    forall cell | cell in CohortPivot(acts, f)
      ensures (cell.0, 0) in CohortPivot(acts, f) && CohortPivot(acts, f)[(cell.0, 0)] > 0
    {
      PivotCohortSize(acts, f, cell);
    }
  }

  /** A count over a larger positive count of its row is a fraction in (0, 1], and 1 over itself. */
  lemma FractionBounds(num: nat, den: nat)
    requires 0 < num <= den
    ensures 0.0 < num as real / den as real <= 1.0
    ensures num == den ==> num as real / den as real == 1.0
  {
    var n, d := num as real, den as real;
    DivSign(n, d);
  }

  /** Dividing by a positive number keeps the sign, and a number no larger than it gives at most 1. */
  lemma DivSign(x: real, d: real)
    requires d > 0.0
    ensures x > 0.0 ==> x / d > 0.0
    ensures x <= d ==> x / d <= 1.0
    ensures x == d ==> x / d == 1.0
  {
  }

  /** Retention is exactly 1 at offset 0 and lies in (0, 1] everywhere else it is present. */
  lemma RetentionBounds(acts: seq<Delivery>, f: CohortFreq, cell: (int, int))
    requires cell in Retention(acts, f)
    ensures cell.1 == 0 ==> Retention(acts, f)[cell] == 1.0
    ensures 0.0 < Retention(acts, f)[cell] <= 1.0
    ensures (cell.0, 0) in CohortPivot(acts, f) && CohortPivot(acts, f)[(cell.0, 0)] > 0
    ensures Retention(acts, f)[cell] == CohortPivot(acts, f)[cell] as real / CohortPivot(acts, f)[(cell.0, 0)] as real
  {
    var pivot := CohortPivot(acts, f);
    PivotCohortSize(acts, f, cell);
    assert Retention(acts, f)[cell] == pivot[cell] as real / pivot[(cell.0, 0)] as real;
    FractionBounds(pivot[cell], pivot[(cell.0, 0)]);
  }

  /** The cohorts: the rows of the pivot. */
  function Cohorts(acts: seq<Delivery>, f: CohortFreq): set<int> {
    set i | 0 <= i < |acts| :: CohortOf(acts, f, acts[i].memberId)
  }

  /** The distinct members with a delivery. */
  function AllMembers(acts: seq<Delivery>): set<int> {
    set i | 0 <= i < |acts| :: acts[i].memberId
  }

  /** The sum of the sizes of the cohorts listed in `cs`. */
  function CohortSizeSum(acts: seq<Delivery>, f: CohortFreq, cs: seq<int>): nat {
    if cs == [] then 0 else |CohortMembers(acts, f, cs[0])| + CohortSizeSum(acts, f, cs[1..])
  }

  /** The members whose cohort lies in `cs`. */
  function MembersInCohorts(acts: seq<Delivery>, f: CohortFreq, cs: set<int>): set<int> {
    set i | 0 <= i < |acts| && CohortOf(acts, f, acts[i].memberId) in cs :: acts[i].memberId
  }

  lemma {:induction false} CohortSizeSumCounts(acts: seq<Delivery>, f: CohortFreq, cs: seq<int>)
    requires NoRepeats(cs)
    ensures CohortSizeSum(acts, f, cs) == |MembersInCohorts(acts, f, set c | c in cs)|
  {
    if cs == [] {
      assert MembersInCohorts(acts, f, set c | c in cs) == {};
    } else {
      var rest := cs[1..];
      assert NoRepeats(rest);
      CohortSizeSumCounts(acts, f, rest);
      var a, b := CohortMembers(acts, f, cs[0]), MembersInCohorts(acts, f, set c | c in rest);
      assert (set c | c in cs) == {cs[0]} + (set c | c in rest);
      assert MembersInCohorts(acts, f, set c | c in cs) == a + b;
      assert cs[0] !in rest;
      assert a * b == {} by {
        forall id | id in a ensures id !in b {
          var i :| 0 <= i < |acts| && CohortOf(acts, f, acts[i].memberId) == cs[0] && acts[i].memberId == id;
        }
      }
    }
  }

  /**
   * The cohort sizes (column 0 of the pivot) add up to the number of distinct
   * members: listed once each, in any order, the cohorts partition the members.
   */
  lemma CohortSizesSumToMembers(acts: seq<Delivery>, f: CohortFreq, cs: seq<int>)
    requires NoRepeats(cs)
    requires (set c | c in cs) == Cohorts(acts, f)
    ensures CohortSizeSum(acts, f, cs) == |AllMembers(acts)|
  {
    CohortSizeSumCounts(acts, f, cs);
    assert MembersInCohorts(acts, f, Cohorts(acts, f)) == AllMembers(acts);
  }

  /** The two tables of the analysis. */
  datatype CohortTables = CohortTables(retentionMatrix: map<(int, int), real>, cohortPivot: map<(int, int), nat>)

  /**
   * `make_retention_matrix`. With no dated row the pivot has no columns, and
   * selecting its first column (`iloc[:, 0]`) raises.
   */
  function MakeRetentionMatrix(rows: seq<Member>, f: CohortFreq): (r: Result<CohortTables>)
    ensures r.Failure? <==> Deliveries(rows) == []
    ensures r.Failure? ==> r.error == EmptyPivot
    ensures r.Success? ==>
      && r.value.retentionMatrix.Keys == r.value.cohortPivot.Keys
      && r.value.cohortPivot.Keys != {}
      && (forall cell :: cell in r.value.cohortPivot ==> cell.1 >= 0)
      && r.value == CohortTables(Retention(Deliveries(rows), f), CohortPivot(Deliveries(rows), f))
  {
    var acts := Deliveries(rows);
    if acts == [] then Failure(EmptyPivot)
    else
      Success(CohortTables(Retention(acts, f), CohortPivot(acts, f)))
  }

  /**
   * `cohort.main`: validate the period setting, leave out the company
   * account, build the tables; this fails when no other member has a delivery.
   */
  function CohortMain(rows: seq<Member>, freq: string): (r: Option<Result<CohortTables>>)
    ensures r.None? <==> freq != "M" && freq != "Q"
    ensures r.Some? ==> (r.value.Failure? <==> Deliveries(WithoutCompanyAccount(rows)) == [])
    ensures r.Some? && r.value.Success? ==>
      && (forall cell :: cell in r.value.value.cohortPivot ==> cell.1 >= 0)
      && var acts := Deliveries(WithoutCompanyAccount(rows));
         var f := ParseCohortFreq(freq).value;
         r.value.value == CohortTables(Retention(acts, f), CohortPivot(acts, f))
  {
    match ParseCohortFreq(freq)
    case None => None
    case Some(f) => Some(MakeRetentionMatrix(WithoutCompanyAccount(rows), f))
  }
}
