/** The administrator's report page. It resolves a window of whole days,
    sums the commission paid in it, counts new, sold and rejected listings
    in it and in each week of it, and compares the headline figures with
    the window of the same length just before it. Every figure whose
    denominator can be zero is guarded. */
module Reports {
  import opened Wrappers
  import opened Text
  import opened Time
  import opened Listings
  import Invoices
  import Money

  // ---------------------------------------------------------------------
  // Windows
  // ---------------------------------------------------------------------

  /** The days `firstDay..lastDay`, from the first tick of the one to the
      last tick of the other. Empty when `lastDay < firstDay`. */
  datatype Window = Window(firstDay: int, lastDay: int)

  function Start(w: Window): int {
    StartOfDay(w.firstDay)
  }

  function End(w: Window): int {
    EndOfDay(w.lastDay)
  }

  /** The number of days `(end.Date - start.Date).Days + 1`. */
  function Span(w: Window): int {
    w.lastDay - w.firstDay + 1
  }

  predicate InWindow(t: int, w: Window) {
    Start(w) <= t <= End(w)
  }

  /** An instant is in the window exactly when its day is. */
  lemma InWindowByDay(t: int, w: Window)
    ensures InWindow(t, w) <==> w.firstDay <= DayOf(t) <= w.lastDay
  {
    WindowByDays(t, w.firstDay, w.lastDay);
  }

  const DefaultDays: int := 30

  /** The length of a preset range: `range` read as a 32-bit number, 30
      when it does not parse. */
  function RangeDays(range: string): (d: int)
    ensures ParseInt32(range).Some? ==> d == ParseInt32(range).value
    ensures ParseInt32(range).None? ==> d == DefaultDays
  {
    ParseInt32(range).GetOr(DefaultDays)
  }

  /** Step 1 of `Index`. With `range` "custom" and both dates, the window
      runs from the start date's day to the end date's day. Otherwise it
      has `RangeDays(range)` days ending today, except that a given end
      date still moves the end (and not the start). `today` is the day
      number of `DateTime.Today`. */
  function ResolveWindow(range: string, startDate: Option<int>, endDate: Option<int>, today: int): (w: Window)
    ensures range == "custom" && startDate.Some? && endDate.Some? ==>
      forall t :: InWindow(t, w) <==> DayOf(startDate.value) <= DayOf(t) <= DayOf(endDate.value)
    ensures !(range == "custom" && startDate.Some? && endDate.Some?) ==>
      && w.firstDay == today - RangeDays(range) + 1
      && (endDate.None? ==> Span(w) == RangeDays(range) && w.lastDay == today)
      && (endDate.Some? ==> w.lastDay == DayOf(endDate.value))
  {
    var w :=
      if range == "custom" && startDate.Some? && endDate.Some? then
        Window(DayOf(startDate.value), DayOf(endDate.value))
      else
        Window(today - RangeDays(range) + 1, if endDate.Some? then DayOf(endDate.value) else today);
    assert forall t :: InWindow(t, w) <==> w.firstDay <= DayOf(t) <= w.lastDay by {
      forall t ensures InWindow(t, w) <==> w.firstDay <= DayOf(t) <= w.lastDay {
        InWindowByDay(t, w);
      }
    }
    w
  }

  /** Step 5: the window of the same number of days ending the day before
      `w` starts. */
  function PreviousWindow(w: Window): (p: Window)
    ensures Span(p) == Span(w)
    ensures p.lastDay + 1 == w.firstDay
  {
    Window(w.firstDay - Span(w), w.firstDay - 1)
  }

  // ---------------------------------------------------------------------
  // Revenue
  // ---------------------------------------------------------------------

  /** A paid invoice verified inside the window. */
  predicate PaidIn(inv: Invoices.Invoice, w: Window) {
    inv.status == Invoices.Paid && inv.verified.Some? && InWindow(inv.verified.value, w)
  }

  /** `Sum(CommissionAmount)` over the invoices paid in the window, in
      cents; 0 over none. */
  function Revenue(invs: seq<Invoices.Invoice>, w: Window): (total: int)
    ensures (forall i :: 0 <= i < |invs| ==> invs[i].amount >= 0) ==> total >= 0
    ensures (forall i :: 0 <= i < |invs| ==> !PaidIn(invs[i], w)) ==> total == 0
  {
    if |invs| == 0 then 0
    else (if PaidIn(invs[0], w) then invs[0].amount else 0) + Revenue(invs[1..], w)
  }

  /** Two adjacent windows earn together what their union earns. */
  lemma {:induction false} RevenueOfAdjacent(invs: seq<Invoices.Invoice>, a: Window, b: Window)
    requires a.firstDay <= a.lastDay + 1 && a.lastDay + 1 == b.firstDay && b.firstDay <= b.lastDay + 1
    ensures Revenue(invs, Window(a.firstDay, b.lastDay)) == Revenue(invs, a) + Revenue(invs, b)
  {
    if |invs| > 0 {
      RevenueOfAdjacent(invs[1..], a, b);
      var v := invs[0].verified;
      if v.Some? {
        InWindowByDay(v.value, a);
        InWindowByDay(v.value, b);
        InWindowByDay(v.value, Window(a.firstDay, b.lastDay));
      }
    }
  }

  /** The revenue of a window and of the window before it add up to the
      revenue of the two together. */
  lemma RevenueWithPrevious(invs: seq<Invoices.Invoice>, w: Window)
    requires Span(w) >= 0
    ensures var p := PreviousWindow(w);
      Revenue(invs, Window(p.firstDay, w.lastDay)) == Revenue(invs, p) + Revenue(invs, w)
  {
    RevenueOfAdjacent(invs, PreviousWindow(w), w);
  }

  // ---------------------------------------------------------------------
  // Listing activity
  // ---------------------------------------------------------------------

  /** What the report counts: listings created, sold, and rejected. */
  datatype Activity = NewListing | Sale | Cancellation

  /** When a listing's activity happened: its creation; for a sold listing
      its last update, or its creation when never updated; for a rejected
      listing likewise. None when it is not sold (or not rejected). */
  function Stamp(p: Property, a: Activity): Option<int> {
    match a
    case NewListing => Some(p.created)
    case Sale => if p.status == Sold then Some(p.updated.GetOr(p.created)) else None
    case Cancellation => if p.approval == ApprovalStatus.Rejected then Some(p.updated.GetOr(p.created)) else None
  }

  predicate CountsIn(p: Property, a: Activity, lo: int, hi: int) {
    Stamp(p, a).Some? && lo <= Stamp(p, a).value <= hi
  }

  /** A sale counts exactly under the controller's two-armed condition. */
  lemma SaleCondition(p: Property, lo: int, hi: int)
    ensures CountsIn(p, Sale, lo, hi) <==>
      p.status == Sold && ((p.updated.Some? && lo <= p.updated.value <= hi) || (p.updated.None? && lo <= p.created <= hi))
  {
  }

  /** `Count()` of the listings whose activity falls in `[lo, hi]`. */
  function CountIn(props: seq<Property>, a: Activity, lo: int, hi: int): (n: nat)
    ensures n <= |props|
    ensures hi < lo ==> n == 0
    ensures n == 0 <==> forall i :: 0 <= i < |props| ==> !CountsIn(props[i], a, lo, hi)
  {
    if |props| == 0 then 0
    else
      var rest := CountIn(props[1..], a, lo, hi);
      assert forall i :: 1 <= i < |props| ==> props[i] == props[1..][i - 1];
      (if CountsIn(props[0], a, lo, hi) then 1 else 0) + rest
  }

  /** Counting over `[lo, hi]` is counting over `[lo, m]` and `(m, hi]`. */
  lemma {:induction false} CountInSplit(props: seq<Property>, a: Activity, lo: int, m: int, hi: int)
    requires lo <= m + 1 <= hi + 1
    ensures CountIn(props, a, lo, hi) == CountIn(props, a, lo, m) + CountIn(props, a, m + 1, hi)
  {
    if |props| > 0 {
      CountInSplit(props[1..], a, lo, m, hi);
    }
  }

  // ---------------------------------------------------------------------
  // Weekly rows
  // ---------------------------------------------------------------------

  /** A bucket of the weekly table, in ticks. */
  datatype Bucket = Bucket(start: int, end: int)

  /** `ceil(Span(w) / 7)` for a non-empty window, else 0. */
  function WeekCount(w: Window): nat {
    if w.lastDay < w.firstDay then 0 else (w.lastDay - w.firstDay) / 7 + 1
  }

  function Min(a: int, b: int): int {
    if a <= b then a else b
  }

  /** The bucket of week `i` (from 0): seven days from the window's first
      day plus `7 * i`, cut at the window's end. */
  function WeekBucket(w: Window, i: nat): Bucket {
    Bucket(StartOfDay(w.firstDay + 7 * i), Min(EndOfDay(w.firstDay + 7 * i + 6), End(w)))
  }

  /** Each bucket ends where the next begins. */
  predicate Contiguous(bs: seq<Bucket>) {
    forall i :: 0 <= i < |bs| - 1 ==> bs[i].end + 1 == bs[i + 1].start
  }

  /** Step 3 of `Index`: seven-day buckets from the window's first day,
      the last one cut at the window's end. Together they cover the window
      exactly, without overlap. */
  method WeeklyBuckets(w: Window) returns (bs: seq<Bucket>)
    ensures |bs| == WeekCount(w)
    ensures forall i :: 0 <= i < |bs| ==> bs[i] == WeekBucket(w, i)
    ensures forall i :: 0 <= i < |bs| ==> bs[i].start <= bs[i].end
    ensures Contiguous(bs)
    ensures |bs| > 0 ==> bs[0].start == Start(w) && bs[|bs| - 1].end == End(w)
  {
    bs := [];
    var cursor := w.firstDay;
    while cursor <= w.lastDay
      invariant cursor == w.firstDay + 7 * |bs|
      invariant |bs| > 0 ==> cursor - 7 <= w.lastDay
      invariant forall i :: 0 <= i < |bs| ==> bs[i] == WeekBucket(w, i)
      invariant forall i :: 0 <= i < |bs| ==> bs[i].start <= bs[i].end
      invariant forall i :: 0 <= i < |bs| - 1 ==> bs[i].end + 1 == bs[i + 1].start
      invariant |bs| > 0 ==> bs[|bs| - 1].end == End(w) || bs[|bs| - 1].end + 1 == StartOfDay(cursor)
      decreases w.lastDay - cursor
    {
      var b := Bucket(StartOfDay(cursor), Min(EndOfDay(cursor + 6), End(w)));
      bs := bs + [b];
      cursor := cursor + 7;
    }
    if |bs| > 0 {
      assert w.firstDay + 7 * (|bs| - 1) <= w.lastDay < w.firstDay + 7 * |bs|;
      assert (w.lastDay - w.firstDay) / 7 == |bs| - 1;
    }
  }

  /** A row of the weekly table. */
  datatype Row = Row(period: string, newListings: nat, sold: nat, cancelled: nat, conversion: int)

  /** `Math.Round(sold * 100.0 / created)`, to even on ties; 0 when nothing
      was listed. Both operands are small whole numbers, so the rounding of
      the exact quotient is what the floating-point expression yields. */
  function Conversion(sold: nat, created: nat): (c: int)
    ensures created == 0 ==> c == 0
    ensures created > 0 ==> Money.IsHalfEvenRounding(sold * 100, created, c)
    ensures created > 0 && sold <= created ==> 0 <= c <= 100
  {
    if created == 0 then 0
    else
      var c := Money.RoundHalfEven(sold * 100, created);
      ConversionBounds(sold, created, c);
      c
  }

  /** A rounded percentage of at most the whole lies in `[0, 100]`. */
  lemma MulNonNegative(x: int, y: int)
    requires x >= 0 && y >= 0
    ensures x * y >= 0
  {
  }

  lemma ConversionBounds(sold: nat, created: nat, c: int)
    requires created > 0 && Money.IsHalfEvenRounding(sold * 100, created, c)
    ensures sold <= created ==> 0 <= c <= 100
  {
    var err := sold * 100 - c * created;
    assert 0 - created <= 2 * err <= created;
    if sold <= created {
      assert sold * 100 <= created * 100;
      if c > 100 {
        MulNonNegative(c - 101, created);
      }
      if c < 0 {
        MulNonNegative(-c - 1, created);
      }
    }
  }

  /** `$"Week {n}"`. */
  function WeekLabel(n: nat): string {
    "Week " + NatToString(n)
  }

  /** Different weeks get different labels. */
  lemma WeekLabelsDistinct(m: nat, n: nat)
    requires m != n
    ensures WeekLabel(m) != WeekLabel(n)
  {
    if WeekLabel(m) == WeekLabel(n) {
      assert NatToString(m) == WeekLabel(m)[5..];
      assert NatToString(n) == WeekLabel(n)[5..];
      NatToStringInjective(m, n);
    }
  }

  function RowOf(props: seq<Property>, b: Bucket, n: nat): Row {
    var created := CountIn(props, NewListing, b.start, b.end);
    var sold := CountIn(props, Sale, b.start, b.end);
    Row(WeekLabel(n), created, sold, CountIn(props, Cancellation, b.start, b.end), Conversion(sold, created))
  }

  /** One row per bucket, labelled "Week 1", "Week 2", .... */
  function Rows(props: seq<Property>, bs: seq<Bucket>): (rows: seq<Row>)
    ensures |rows| == |bs|
    ensures forall i :: 0 <= i < |bs| ==> rows[i] == RowOf(props, bs[i], i + 1)
  {
    seq(|bs|, i requires 0 <= i < |bs| => RowOf(props, bs[i], i + 1))
  }

  /** The count of a row in one column. */
  function Column(r: Row, a: Activity): nat {
    match a
    case NewListing => r.newListings
    case Sale => r.sold
    case Cancellation => r.cancelled
  }

  /** A column's total over the weekly rows. */
  function ColumnTotal(rows: seq<Row>, a: Activity): nat {
    if |rows| == 0 then 0 else ColumnTotal(rows[..|rows| - 1], a) + Column(rows[|rows| - 1], a)
  }

  /** A row's column holds the bucket's count. */
  lemma ColumnOfRow(props: seq<Property>, b: Bucket, n: nat, a: Activity)
    ensures Column(RowOf(props, b, n), a) == CountIn(props, a, b.start, b.end)
  {
  }

  /** The counts of the buckets, added up. */
  function BucketTotal(props: seq<Property>, a: Activity, bs: seq<Bucket>): nat {
    if |bs| == 0 then 0 else BucketTotal(props, a, bs[..|bs| - 1]) + CountIn(props, a, bs[|bs| - 1].start, bs[|bs| - 1].end)
  }

  /** A column's total is the buckets' total. */
  lemma {:induction false} ColumnTotalOfRows(props: seq<Property>, bs: seq<Bucket>, a: Activity)
    ensures ColumnTotal(Rows(props, bs), a) == BucketTotal(props, a, bs)
  {
    if |bs| > 0 {
      var rows := Rows(props, bs);
      var k := |bs| - 1;
      assert rows[..k] == Rows(props, bs[..k]);
      ColumnTotalOfRows(props, bs[..k], a);
      ColumnOfRow(props, bs[k], k + 1, a);
    }
  }

  /** Over contiguous buckets, the counts add up to the count over the
      whole span. */
  lemma {:induction false} BucketTotalOfContiguous(props: seq<Property>, bs: seq<Bucket>, a: Activity)
    requires |bs| > 0 && Contiguous(bs)
    requires forall i :: 0 <= i < |bs| ==> bs[i].start <= bs[i].end
    ensures bs[0].start <= bs[|bs| - 1].end
    ensures BucketTotal(props, a, bs) == CountIn(props, a, bs[0].start, bs[|bs| - 1].end)
  {
    var k := |bs| - 1;
    if k > 0 {
      var front := bs[..k];
      assert Contiguous(front);
      BucketTotalOfContiguous(props, front, a);
      assert bs[k - 1].end + 1 == bs[k].start;
      CountInSplit(props, a, bs[0].start, bs[k - 1].end, bs[k].end);
    }
  }

  /** Over contiguous buckets, the weekly rows add up to the count over the
      whole span. */
  lemma ColumnTotalOfContiguous(props: seq<Property>, bs: seq<Bucket>, a: Activity)
    requires |bs| > 0 && Contiguous(bs)
    requires forall i :: 0 <= i < |bs| ==> bs[i].start <= bs[i].end
    ensures ColumnTotal(Rows(props, bs), a) == CountIn(props, a, bs[0].start, bs[|bs| - 1].end)
  {
    ColumnTotalOfRows(props, bs, a);
    BucketTotalOfContiguous(props, bs, a);
  }

  /** The first row with the highest conversion (`OrderByDescending` is
      stable, so ties go to the earlier week). */
  function BestIndex(rows: seq<Row>): (k: nat)
    requires |rows| > 0
    ensures k < |rows|
    ensures forall j :: 0 <= j < |rows| ==> rows[j].conversion <= rows[k].conversion
    ensures forall j :: 0 <= j < k ==> rows[j].conversion < rows[k].conversion
  {
    if |rows| == 1 then 0
    else
      var k := BestIndex(rows[1..]) + 1;
      assert forall j :: 1 <= j < |rows| ==> rows[j] == rows[1..][j - 1];
      if rows[0].conversion >= rows[k].conversion then 0 else k
  }

  /** Row `k` has the highest conversion and no earlier row reaches it. */
  predicate FirstBestAt(rows: seq<Row>, k: int) {
    && 0 <= k < |rows|
    && (forall j :: 0 <= j < |rows| ==> rows[j].conversion <= rows[k].conversion)
    && (forall j :: 0 <= j < k ==> rows[j].conversion < rows[k].conversion)
  }

  /** Step 4: the label and conversion of the week with the highest
      conversion, the earliest such week on a tie; "-" and 0 without
      weeks. */
  function BestPeriod(rows: seq<Row>): (r: (string, int))
    ensures |rows| == 0 ==> r == ("-", 0)
    ensures |rows| > 0 ==> exists k :: FirstBestAt(rows, k) && r == (rows[k].period, rows[k].conversion)
    ensures forall j :: 0 <= j < |rows| ==> rows[j].conversion <= r.1
  {
    if |rows| == 0 then ("-", 0)
    else
      var k := BestIndex(rows);
      assert FirstBestAt(rows, k);
      (rows[k].period, rows[k].conversion)
  }

  // ---------------------------------------------------------------------
  // Quick insights
  // ---------------------------------------------------------------------

  /** A sold listing with an update date: the ones the average uses. */
  predicate TimedSale(p: Property) {
    p.status == Sold && p.updated.Some?
  }

  /** The ticks from listing to last update, summed over timed sales. */
  function SaleTicks(props: seq<Property>): int {
    if |props| == 0 then 0
    else
      var here := if TimedSale(props[0]) then props[0].updated.value - props[0].created else 0;
      here + SaleTicks(props[1..])
  }

  function TimedSales(props: seq<Property>): (n: nat)
    ensures n == 0 <==> forall i :: 0 <= i < |props| ==> !TimedSale(props[i])
  {
    if |props| == 0 then 0
    else
      assert forall i :: 1 <= i < |props| ==> props[i] == props[1..][i - 1];
      (if TimedSale(props[0]) then 1 else 0) + TimedSales(props[1..])
  }

  /** The average days from listing to sale over every sold listing with an
      update date (not only those in the window), rounded to even, and
      never negative; 0 when there is none. */
  function AvgDaysToSell(props: seq<Property>): (d: int)
    ensures d >= 0
    ensures TimedSales(props) == 0 ==> d == 0
    ensures TimedSales(props) > 0 ==>
      var avg := Money.RoundHalfEven(SaleTicks(props), TimedSales(props) * TicksPerDay);
      Money.IsHalfEvenRounding(SaleTicks(props), TimedSales(props) * TicksPerDay, avg)
      && d == (if avg < 0 then 0 else avg)
  {
    var n := TimedSales(props);
    if n == 0 then 0
    else
      var avg := Money.RoundHalfEven(SaleTicks(props), n * TicksPerDay);
      if avg < 0 then 0 else avg
  }

  /** The sales of one type in the window. */
  function SalesOfType(props: seq<Property>, t: PropertyType, w: Window): nat {
    if |props| == 0 then 0
    else
      var here := if CountsIn(props[0], Sale, Start(w), End(w)) && props[0].details.propertyType == t then 1 else 0;
      here + SalesOfType(props[1..], t, w)
  }

  /** The window's sales are the sales of the four types. */
  lemma {:induction false} SalesByType(props: seq<Property>, w: Window)
    ensures CountIn(props, Sale, Start(w), End(w)) ==
      SalesOfType(props, Apartment, w) + SalesOfType(props, House, w)
      + SalesOfType(props, Commercial, w) + SalesOfType(props, Land, w)
  {
    if |props| > 0 {
      SalesByType(props[1..], w);
    }
  }

  /** The type with the most sales in the window; "-" (None) without
      sales. Among tied types the declaration order decides. */
  function TopCategory(props: seq<Property>, w: Window): (r: Option<PropertyType>)
    ensures r.None? <==> CountIn(props, Sale, Start(w), End(w)) == 0
    ensures r.Some? ==> SalesOfType(props, r.value, w) > 0
    ensures r.Some? ==>
      var top := SalesOfType(props, r.value, w);
      && SalesOfType(props, Apartment, w) <= top && SalesOfType(props, House, w) <= top
      && SalesOfType(props, Commercial, w) <= top && SalesOfType(props, Land, w) <= top
  {
    SalesByType(props, w);
    var a := SalesOfType(props, Apartment, w);
    var h := SalesOfType(props, House, w);
    var c := SalesOfType(props, Commercial, w);
    var l := SalesOfType(props, Land, w);
    if a + h + c + l == 0 then None
    else if a >= h && a >= c && a >= l then Some(Apartment)
    else if h >= c && h >= l then Some(House)
    else if c >= l then Some(Commercial)
    else Some(Land)
  }

  /** A change against the previous window in hundredths of a percent,
      `Math.Round((cur - prev) / prev * 100, 2)`; 0 when there is no
      positive previous figure. */
  function ChangeHundredths(cur: int, prev: int): (c: int)
    ensures prev <= 0 ==> c == 0
    ensures prev > 0 ==> Money.IsHalfEvenRounding((cur - prev) * 10000, prev, c)
  {
    if prev > 0 then Money.RoundHalfEven((cur - prev) * 10000, prev) else 0
  }

  /** The change has the sign of the difference: no change reads 0, a rise
      never reads negative and a fall never positive; doubling reads 100%. */
  lemma ChangeSign(cur: int, prev: int)
    requires prev > 0
    ensures cur == prev ==> ChangeHundredths(cur, prev) == 0
    ensures ChangeHundredths(cur, prev) > 0 ==> cur > prev
    ensures ChangeHundredths(cur, prev) < 0 ==> cur < prev
    ensures cur == 2 * prev ==> ChangeHundredths(cur, prev) == 10000
  {
    var c := ChangeHundredths(cur, prev);
    var n := (cur - prev) * 10000;
    if cur == prev {
      Money.ExactQuotientRounds(n, prev, 0);
      Money.HalfEvenRoundingUnique(n, prev, c, 0);
    }
    if cur == 2 * prev {
      assert n == 10000 * prev;
      Money.ExactQuotientRounds(n, prev, 10000);
      Money.HalfEvenRoundingUnique(n, prev, c, 10000);
    }
  }

  // ---------------------------------------------------------------------
  // The page
  // ---------------------------------------------------------------------

  datatype Report = Report(
    window: Window,
    totalRevenue: int,
    completedSales: nat,
    newListings: nat,
    cancelled: nat,
    rows: seq<Row>,
    bestLabel: string,
    bestConversion: int,
    avgDaysToSell: int,
    topCategory: Option<PropertyType>,
    revenueChange: int,
    salesChange: int,
    listingsChange: int)

  /** Row `i` of the weekly table holds week `i`'s counts. */
  predicate RowOfWeek(props: seq<Property>, w: Window, i: nat, r: Row) {
    var b := WeekBucket(w, i);
    && r.period == WeekLabel(i + 1)
    && r.newListings == CountIn(props, NewListing, b.start, b.end)
    && r.sold == CountIn(props, Sale, b.start, b.end)
    && r.cancelled == CountIn(props, Cancellation, b.start, b.end)
    && r.conversion == Conversion(r.sold, r.newListings)
  }

  /** The weekly table of a window: one row per week, holding that week's
      counts and conversion, and adding up to the window's counts in every
      column. */
  method WeeklyRows(props: seq<Property>, w: Window) returns (rows: seq<Row>)
    ensures |rows| == WeekCount(w)
    ensures forall i :: 0 <= i < |rows| ==> RowOfWeek(props, w, i, rows[i])
    ensures forall i :: 0 <= i < |rows| ==> rows[i].period == WeekLabel(i + 1)
    ensures forall i :: 0 <= i < |rows| ==> rows[i].newListings == 0 ==> rows[i].conversion == 0
    ensures forall a :: ColumnTotal(rows, a) == CountIn(props, a, Start(w), End(w))
  {
    var bs := WeeklyBuckets(w);
    rows := Rows(props, bs);
    forall a ensures ColumnTotal(rows, a) == CountIn(props, a, Start(w), End(w)) {
      if |bs| > 0 {
        ColumnTotalOfContiguous(props, bs, a);
      }
    }
  }

  /** `AdminReports/Index`. The weekly table adds up to the headline
      counts, and every guarded figure is guarded. */
  method BuildReport(props: seq<Property>, invs: seq<Invoices.Invoice>, range: string,
                     startDate: Option<int>, endDate: Option<int>, today: int) returns (rep: Report)
    ensures rep.window == ResolveWindow(range, startDate, endDate, today)
    ensures rep.totalRevenue == Revenue(invs, rep.window)
    ensures rep.completedSales == CountIn(props, Sale, Start(rep.window), End(rep.window))
    ensures rep.newListings == CountIn(props, NewListing, Start(rep.window), End(rep.window))
    ensures rep.cancelled == CountIn(props, Cancellation, Start(rep.window), End(rep.window))
    ensures |rep.rows| == WeekCount(rep.window)
    ensures forall i :: 0 <= i < |rep.rows| ==> RowOfWeek(props, rep.window, i, rep.rows[i])
    ensures forall i :: 0 <= i < |rep.rows| ==> rep.rows[i].period == WeekLabel(i + 1)
    ensures forall i :: 0 <= i < |rep.rows| ==> rep.rows[i].newListings == 0 ==> rep.rows[i].conversion == 0
    ensures ColumnTotal(rep.rows, NewListing) == rep.newListings
    ensures ColumnTotal(rep.rows, Sale) == rep.completedSales
    ensures ColumnTotal(rep.rows, Cancellation) == rep.cancelled
    ensures (rep.bestLabel, rep.bestConversion) == BestPeriod(rep.rows)
    ensures rep.avgDaysToSell == AvgDaysToSell(props) && rep.avgDaysToSell >= 0
    ensures rep.topCategory == TopCategory(props, rep.window)
    ensures var prev := PreviousWindow(rep.window);
      && rep.revenueChange == ChangeHundredths(rep.totalRevenue, Revenue(invs, prev))
      && rep.salesChange == rep.completedSales - CountIn(props, Sale, Start(prev), End(prev))
      && rep.listingsChange == ChangeHundredths(rep.newListings, CountIn(props, NewListing, Start(prev), End(prev)))
  {
    var w := ResolveWindow(range, startDate, endDate, today);
    var lo, hi := Start(w), End(w);
    var revenue := Revenue(invs, w);
    var sales := CountIn(props, Sale, lo, hi);
    var created := CountIn(props, NewListing, lo, hi);
    var cancelled := CountIn(props, Cancellation, lo, hi);
    var rows := WeeklyRows(props, w);
    var best := BestPeriod(rows);

    var prev := PreviousWindow(w);
    var prevRevenue := Revenue(invs, prev);
    var prevSales := CountIn(props, Sale, Start(prev), End(prev));
    var prevListings := CountIn(props, NewListing, Start(prev), End(prev));

    rep := Report(w, revenue, sales, created, cancelled, rows, best.0, best.1,
      AvgDaysToSell(props), TopCategory(props, w),
      ChangeHundredths(revenue, prevRevenue), sales as int - prevSales as int, ChangeHundredths(created, prevListings));
  }
}
