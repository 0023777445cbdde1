/**
  The heatmap and per-meter series generators of the block store
  (`app/stores/blockStore/utils/mockGenerators.ts`). Each generator takes the block
  records `{meterId, date}` and builds its output rows in a loop, as the source does.

  What the source draws from `Math.random` (energy readings, USD values, the intensity
  of a day without blocks) is passed in as a function, and "today" is a day number.
  A meter filter of `""` means "no filter", exactly as an absent or empty `meterId`
  is falsy in JavaScript.
 */
module MockGenerators {
  import opened Wrappers
  import opened Text
  import opened Seqs
  import opened Calendar

  datatype BlockData = BlockData(meterId: string, date: string)

  /** One heatmap cell: a day (and, in multi-meter views, a meter) with its intensity. */
  datatype DayData = DayData(
    date: string, value: int, month: int, day: int, weekday: int, week: int, meterId: string)

  datatype HourlyEnergyUsage = HourlyEnergyUsage(
    meterId: string, hour: string, energyUsed: real, timestamp: string)

  datatype StablecoinData = StablecoinData(symbol: string, network: string, value: real)

  // ---------------------------------------------------------------- shared pieces

  /** `meterId ? blocks.filter(b => b.meterId === meterId) : blocks`. */
  function FilterByMeter(blocks: seq<BlockData>, meterId: string): (r: seq<BlockData>)
    ensures meterId == "" ==> r == blocks
    ensures |r| <= |blocks|
  {
    if meterId == "" then blocks else Filter(blocks, (b: BlockData) => b.meterId == meterId)
  }

  /** With a meter id given, the filter keeps exactly that meter's blocks, every copy of each. */
  lemma FilterByMeterMembers(blocks: seq<BlockData>, meterId: string)
    requires meterId != ""
    ensures forall b :: b in FilterByMeter(blocks, meterId) <==> b in blocks && b.meterId == meterId
    ensures forall b: BlockData :: b.meterId == meterId ==>
      multiset(FilterByMeter(blocks, meterId))[b] == multiset(blocks)[b]
  {
    var p := (b: BlockData) => b.meterId == meterId;
    FilterMembers(blocks, p);
    forall b: BlockData | b.meterId == meterId
      ensures multiset(FilterByMeter(blocks, meterId))[b] == multiset(blocks)[b]
    {
      FilterCounts(blocks, p, b);
    }
  }

  /** A block's `DD/MM/YYYY` date split on `/`, reversed and joined with `-`. */
  function RewriteBlockDate(date: string): string
  {
    Join(Reverse(Split(date, '/')), '-')
  }

  /** The calendar day `new Date(...)` makes of the rewritten block date, if any. */
  function BlockDay(date: string): Option<Date>
  {
    ParseIsoDate(RewriteBlockDate(date))
  }

  /** A block counts for day `d` when its date denotes the same day, month and year. */
  predicate OnDay(b: BlockData, d: Date)
  {
    BlockDay(b.date) == Some(d)
  }

  /** `filteredBlocks.filter(...)`: the blocks of one day, in block order. */
  function DayBlocks(blocks: seq<BlockData>, d: Date): (r: seq<BlockData>)
    ensures |r| <= |blocks|
  {
    Filter(blocks, (b: BlockData) => OnDay(b, d))
  }

  /** The blocks of a day are the blocks on that day, every copy of each. */
  lemma DayBlocksMembers(blocks: seq<BlockData>, d: Date)
    ensures forall b :: b in DayBlocks(blocks, d) <==> b in blocks && OnDay(b, d)
    ensures forall b: BlockData :: OnDay(b, d) ==> multiset(DayBlocks(blocks, d))[b] == multiset(blocks)[b]
  {
    var p := (b: BlockData) => OnDay(b, d);
    FilterMembers(blocks, p);
    forall b: BlockData | OnDay(b, d)
      ensures multiset(DayBlocks(blocks, d))[b] == multiset(blocks)[b]
    {
      FilterCounts(blocks, p, b);
    }
  }

  /** The `DD/MM/YYYY` form a block date takes for a four-digit-year day. */
  function BlockDateString(d: Date): string
    requires ValidDate(d) && 0 <= d.year <= 9999
  {
    Pad(d.day, 2) + "/" + Pad(d.month + 1, 2) + "/" + Pad(d.year, 4)
  }

  /** Rewriting a `DD/MM/YYYY` date gives the ISO string of the same day, which parses back. */
  lemma BlockDateRoundTrip(d: Date)
    requires ValidDate(d) && 0 <= d.year <= 9999
    ensures RewriteBlockDate(BlockDateString(d)) == IsoDate(d)
    ensures BlockDay(BlockDateString(d)) == Some(d)
  {
    var dd, mm, yyyy := Pad(d.day, 2), Pad(d.month + 1, 2), Pad(d.year, 4);
    NoSlashInPad(d.day, 2);
    NoSlashInPad(d.month + 1, 2);
    NoSlashInPad(d.year, 4);
    assert BlockDateString(d) == dd + "/" + mm + "/" + yyyy;
    RewriteThree(dd, mm, yyyy);
    assert IsoDate(d) == yyyy + "-" + mm + "-" + dd;
    IsoDateRoundTrip(d);
  }

  /** Reversing the three `/`-separated fields of a date and joining them with `-`. */
  lemma RewriteThree(dd: string, mm: string, yyyy: string)
    requires '/' !in dd && '/' !in mm && '/' !in yyyy
    ensures RewriteBlockDate(dd + "/" + mm + "/" + yyyy) == yyyy + "-" + mm + "-" + dd
  {
    var parts := [dd, mm, yyyy];
    JoinThree(dd, mm, yyyy, '/');
    SplitJoin(parts, '/');
    assert Reverse(parts) == [yyyy, mm, dd];
    JoinThree(yyyy, mm, dd, '-');
  }

  lemma NoSlashInPad(n: nat, w: nat)
    requires 1 <= w && n < Pow10(w)
    ensures '/' !in Pad(n, w)
  {
    PadRoundTrip(n, w);
    NoSlashInDigits(Pad(n, w));
  }

  lemma NoSlashInDigits(s: string)
    requires AllDigits(s)
    ensures '/' !in s
  {
    forall i | 0 <= i < |s|
      ensures s[i] != '/'
    {
      assert IsDigit(s[i]);
    }
  }

  lemma JoinThree(a: string, b: string, c: string, sep: char)
    ensures Join([a, b, c], sep) == a + [sep] + b + [sep] + c
  {
    assert [a, b, c][1..] == [b, c];
    assert [b, c][1..] == [c];
    assert Join([c], sep) == c;
    assert Join([b, c], sep) == b + [sep] + c;
    assert Join([a, b, c], sep) == a + [sep] + (b + [sep] + c);
  }

  /** A block dated `DD/MM/YYYY` counts for exactly one day: the day it names. */
  lemma DayMatchIff(b: BlockData, e: Date, d: Date)
    requires ValidDate(e) && 0 <= e.year <= 9999
    requires b.date == BlockDateString(e)
    ensures OnDay(b, d) <==> d == e
  {
    BlockDateRoundTrip(e);
  }

  /** One heatmap row for day number `n`, with the calendar fields the source reads off `date`. */
  function DayRow(n: int, value: int, meterId: string): (r: DayData)
    ensures r.value == value && r.meterId == meterId
  {
    var d := FromDayNumber(n);
    DayData(IsoDate(d), value, d.month, d.day, Weekday(n), WeekOfMonth(d.day), meterId)
  }

  /** A row's date is its day in ISO form, and month, day, weekday and week are in range. */
  lemma DayRowFields(n: int, value: int, meterId: string)
    ensures var r := DayRow(n, value, meterId);
      && r.date == IsoDate(FromDayNumber(n))
      && r.month == FromDayNumber(n).month && r.day == FromDayNumber(n).day
      && r.weekday == Weekday(n)
      && CalendarFieldsInRange(r)
  {
  }

  /** Month 0..11, day 1..31, weekday 0..6 and week-of-month `ceil(day / 7)` in 1..5. */
  predicate CalendarFieldsInRange(r: DayData)
  {
    && 0 <= r.month <= 11
    && 1 <= r.day <= 31
    && 0 <= r.weekday <= 6
    && 1 <= r.week <= 5
    && 7 * (r.week - 1) < r.day <= 7 * r.week
  }

  /** `blocks.map(b => b.meterId)`. */
  function MeterIds(blocks: seq<BlockData>): (r: seq<string>)
    ensures |r| == |blocks|
    ensures forall i :: 0 <= i < |blocks| ==> r[i] == blocks[i].meterId
  {
    seq(|blocks|, i requires 0 <= i < |blocks| => blocks[i].meterId)
  }

  /** `Array.from(new Set(xs))`: each value once, in order of first appearance. */
  function Distinct(xs: seq<string>): (r: seq<string>)
    ensures forall x :: x in r <==> x in xs
    ensures forall i, j :: 0 <= i < j < |r| ==> r[i] != r[j]
  {
    if xs == [] then []
    else
      var p := Distinct(xs[..|xs| - 1]);
      var last := xs[|xs| - 1];
      assert xs == xs[..|xs| - 1] + [last];
      if last in p then p else p + [last]
  }

  /** Index of the first occurrence of `x` in `xs`. */
  function FirstIndex(xs: seq<string>, x: string): (i: nat)
    requires x in xs
    ensures i < |xs| && xs[i] == x
    ensures forall k :: 0 <= k < i ==> xs[k] != x
  {
    if xs[0] == x then 0 else 1 + FirstIndex(xs[1..], x)
  }

  /** The distinct values come out in the order in which each first appears. */
  lemma {:induction false} DistinctFirstAppearance(xs: seq<string>, i: int, j: int)
    requires 0 <= i < j < |Distinct(xs)|
    ensures FirstIndex(xs, Distinct(xs)[i]) < FirstIndex(xs, Distinct(xs)[j])
  {
    var front := xs[..|xs| - 1];
    var last := xs[|xs| - 1];
    var p := Distinct(front);
    var r := Distinct(xs);
    assert xs == front + [last];
    if j < |p| {
      DistinctFirstAppearance(front, i, j);
      FirstIndexOfPrefix(front, xs, r[i]);
      FirstIndexOfPrefix(front, xs, r[j]);
    } else {
      // r[j] is `last`, which does not occur earlier; r[i] does
      assert r == p + [last] && last !in p;
      assert r[i] in front;
      FirstIndexOfPrefix(front, xs, r[i]);
      assert FirstIndex(xs, last) == |xs| - 1;
    }
  }

  lemma FirstIndexOfPrefix(front: seq<string>, xs: seq<string>, x: string)
    requires x in front && front <= xs
    ensures x in xs && FirstIndex(xs, x) == FirstIndex(front, x)
  {
    var i, k := FirstIndex(xs, x), FirstIndex(front, x);
    assert xs[k] == x;
    assert forall j :: 0 <= j < |front| ==> front[j] == xs[j];
  }

  /** `Array.from(new Set(blocks.map(b => b.meterId)))`. */
  function UniqueMeterIds(blocks: seq<BlockData>): (r: seq<string>)
    ensures forall m :: m in r <==> exists b :: b in blocks && b.meterId == m
    ensures forall i, j :: 0 <= i < j < |r| ==> r[i] != r[j]
    ensures blocks == [] <==> r == []
  {
    var ids := MeterIds(blocks);
    var r := Distinct(ids);
    assert forall m :: m in ids ==> exists b :: b in blocks && b.meterId == m by {
      forall m | m in ids ensures exists b :: b in blocks && b.meterId == m {
        var i :| 0 <= i < |ids| && ids[i] == m;
        assert blocks[i] in blocks;
      }
    }
    assert forall b :: b in blocks ==> b.meterId in ids by {
      forall b | b in blocks ensures b.meterId in ids {
        var i :| 0 <= i < |blocks| && blocks[i] == b;
        assert ids[i] == b.meterId;
      }
    }
    assert blocks != [] ==> blocks[0].meterId in r;
    r
  }

  // ---------------------------------------------------------------- rolling 90-day view

  /** Number of days, counted back from today, in the rolling view. */
  const RollingWindow := 90

  /** The row once per meter id, in the order given, each copy carrying its meter. */
  function FanOut(ids: seq<string>, row: DayData): (rows: seq<DayData>)
    ensures |rows| == |ids|
  {
    if ids == [] then []
    else
      var last := |ids| - 1;
      FanOut(ids[..last], row) + [row.(meterId := ids[last])]
  }

  /** Copy j belongs to meter j and differs from the row only in its meter. */
  lemma {:induction false} FanOutAt(ids: seq<string>, row: DayData)
    ensures forall j :: 0 <= j < |ids| ==> FanOut(ids, row)[j] == row.(meterId := ids[j])
  {
    if ids != [] {
      var last := |ids| - 1;
      FanOutAt(ids[..last], row);
    }
  }

  /**
    The rows of day `n` in the rolling view: one per matching block with value
    `floor(k / 10 * 100) = 10 * k` (not clamped), or, when no block matches and no meter
    filter is active, a single zero row with meter `""`.
   */
  function RollingDay(filtered: seq<BlockData>, n: int, filterActive: bool): seq<DayData>
  {
    var dayBlocks := DayBlocks(filtered, FromDayNumber(n));
    FanOut(MeterIds(dayBlocks), DayRow(n, 10 * |dayBlocks|, ""))
      + (if |dayBlocks| == 0 && !filterActive then [DayRow(n, 0, "")] else [])
  }

  /** The rows of day `n` as a function of the day, for a fixed block list and filter. */
  function DayRowsOf(filtered: seq<BlockData>, filterActive: bool): int -> seq<DayData>
  {
    n => RollingDay(filtered, n, filterActive)
  }

  /** The rows of the first `days` iterations: today, yesterday, ... newest first. */
  function RollingRows<T>(dayRows: int -> seq<T>, today: int, days: nat): seq<T>
  {
    if days == 0 then [] else RollingRows(dayRows, today, days - 1) + dayRows(today - (days - 1))
  }

  /** What `generateMockHeatmapData(blocks, meterId)` returns when today is day `today`. */
  function RollingHeatmap(blocks: seq<BlockData>, meterId: string, today: int): seq<DayData>
  {
    RollingRows(DayRowsOf(FilterByMeter(blocks, meterId), meterId != ""), today, RollingWindow)
  }

  method GenerateMockHeatmapData(blocks: seq<BlockData>, meterId: string, today: int)
    returns (data: seq<DayData>)
    ensures data == RollingHeatmap(blocks, meterId, today)
  {
    data := [];
    var filteredBlocks := FilterByMeter(blocks, meterId);
    var filterActive := meterId != "";
    ghost var dayRows := DayRowsOf(filteredBlocks, filterActive);
    for i := 0 to RollingWindow
      invariant data == RollingRows(dayRows, today, i)
    {
      var n := today - i;
      data := PushDay(data, filteredBlocks, n, filterActive);
      RollingRowsNext(dayRows, today, i, n);
    }
  }

  /** One iteration of the 90-day loop: push the rows of day `n` onto `data`. */
  method PushDay(data: seq<DayData>, filteredBlocks: seq<BlockData>, n: int, filterActive: bool)
    returns (out: seq<DayData>)
    ensures out == data + DayRowsOf(filteredBlocks, filterActive)(n)
  {
    var date := FromDayNumber(n);
    var dayBlocks := DayBlocks(filteredBlocks, date);
    var row := DayRow(n, 10 * |dayBlocks|, "");
    out := PushMeterRows(data, MeterIds(dayBlocks), row);
    if |dayBlocks| == 0 && !filterActive {
      out := out + [DayRow(n, 0, "")];
    }
  }

  /** The inner `forEach`: push one copy of the row per meter id, carrying that meter. */
  method PushMeterRows(data: seq<DayData>, ids: seq<string>, row: DayData)
    returns (out: seq<DayData>)
    ensures out == data + FanOut(ids, row)
  {
    out := data;
    for j := 0 to |ids|
      invariant out == data + FanOut(ids[..j], row)
    {
      assert ids[..j + 1][..j] == ids[..j];
      out := out + [row.(meterId := ids[j])];
    }
    assert ids[..|ids|] == ids;
  }

  /** The view after i + 1 days is the view after i days followed by the rows of day `today - i`. */
  lemma RollingRowsNext<T>(dayRows: int -> seq<T>, today: int, i: nat, n: int)
    requires n == today - i
    ensures RollingRows(dayRows, today, i + 1) == RollingRows(dayRows, today, i) + dayRows(n)
  {
  }

  /**
    The rows of the first `days` days split around day `today - i`: the rows of the `i`
    newer days, its own rows, then the rows of the older days, newest first.
   */
  lemma {:induction false} RollingRowsSplit<T>(dayRows: int -> seq<T>, today: int, days: nat, i: nat)
    requires i < days
    ensures RollingRows(dayRows, today, days)
      == RollingRows(dayRows, today, i) + dayRows(today - i) + RollingRows(dayRows, today - i - 1, days - i - 1)
  {
    var newer, day := RollingRows(dayRows, today, i), dayRows(today - i);
    if i == days - 1 {
      assert RollingRows(dayRows, today - i - 1, 0) == [];
      assert RollingRows(dayRows, today, days) == newer + day;
    } else {
      var oldest := dayRows(today - (days - 1));
      var older := RollingRows(dayRows, today - i - 1, days - i - 2);
      RollingRowsSplit(dayRows, today, days - 1, i);
      assert RollingRows(dayRows, today - i - 1, days - i - 1) == older + oldest;
      assert RollingRows(dayRows, today, days) == newer + day + older + oldest;
    }
  }

  /** Every row of the first `days` days comes from one of those days. */
  lemma {:induction false} RollingRowsFrom<T>(dayRows: int -> seq<T>, today: int, days: nat)
    ensures forall r :: r in RollingRows(dayRows, today, days) ==>
      exists n :: today - days < n <= today && r in dayRows(n)
  {
    if days > 0 {
      RollingRowsFrom(dayRows, today, days - 1);
      var m := today - (days - 1);
      forall r | r in RollingRows(dayRows, today, days)
        ensures exists n :: today - days < n <= today && r in dayRows(n)
      {
        if r !in RollingRows(dayRows, today, days - 1) {
          assert r in dayRows(m);
        }
      }
    }
  }

  /** Rows a day contributes: k with a filter, max(k, 1) without. */
  function ExpectedDayRows(k: nat, filterActive: bool): nat
  {
    if filterActive || k > 0 then k else 1
  }

  /** `size(today) + size(today - 1) + ...` over the first `days` days. */
  function DaySum(size: int -> nat, today: int, days: nat): nat
  {
    if days == 0 then 0 else DaySum(size, today, days - 1) + size(today - (days - 1))
  }

  /** Rows day `n` contributes by the count of its blocks: k with a filter, max(k, 1) without. */
  function ExpectedRowsOf(filtered: seq<BlockData>, filterActive: bool): int -> nat
  {
    n => ExpectedDayRows(|DayBlocks(filtered, FromDayNumber(n))|, filterActive)
  }

  /** The view has as many rows as its days contribute, day by day. */
  lemma {:induction false} RollingRowsLength<T>(dayRows: int -> seq<T>, size: int -> nat, today: int, days: nat)
    requires forall n :: |dayRows(n)| == size(n)
    ensures |RollingRows(dayRows, today, days)| == DaySum(size, today, days)
  {
    if days > 0 {
      RollingRowsLength(dayRows, size, today, days - 1);
    }
  }

  /** The rolling view has sum(max(k_d, 1)) rows unfiltered and sum(k_d) rows filtered. */
  lemma RollingLength(filtered: seq<BlockData>, today: int, filterActive: bool, days: nat)
    ensures |RollingRows(DayRowsOf(filtered, filterActive), today, days)|
      == DaySum(ExpectedRowsOf(filtered, filterActive), today, days)
  {
    var dayRows := DayRowsOf(filtered, filterActive);
    var size := ExpectedRowsOf(filtered, filterActive);
    forall n
      ensures |dayRows(n)| == size(n)
    {
      RollingDayContents(filtered, n, filterActive);
    }
    RollingRowsLength(dayRows, size, today, days);
  }

  /**
    One day of the rolling view: a row per matching block, in block order, each carrying
    that block's meter and the value 10 * k; a day without blocks gives a single zero row
    with meter `""` when no filter is active and nothing when one is.
   */
  lemma RollingDayContents(filtered: seq<BlockData>, n: int, filterActive: bool)
    ensures var dayBlocks := DayBlocks(filtered, FromDayNumber(n));
      var rows := RollingDay(filtered, n, filterActive);
      && |rows| == ExpectedDayRows(|dayBlocks|, filterActive)
      && (forall j :: 0 <= j < |dayBlocks| ==> rows[j] == DayRow(n, 10 * |dayBlocks|, dayBlocks[j].meterId))
      && (dayBlocks == [] ==> rows == if filterActive then [] else [DayRow(n, 0, "")])
  {
    var dayBlocks := DayBlocks(filtered, FromDayNumber(n));
    FanOutAt(MeterIds(dayBlocks), DayRow(n, 10 * |dayBlocks|, ""));
  }

  /** Row `r` is dated on a day of the window `(lo, hi]` and its calendar fields are in range. */
  predicate InWindow(r: DayData, lo: int, hi: int)
  {
    && CalendarFieldsInRange(r)
    && exists n :: lo < n <= hi && r.date == IsoDate(FromDayNumber(n))
  }

  /** Every row of day `n` is dated `n`; when the blocks all carry `meterId`, so do the rows. */
  lemma RollingDayShape(filtered: seq<BlockData>, n: int, meterId: string)
    requires meterId != "" ==> forall b :: b in filtered ==> b.meterId == meterId
    ensures forall r :: r in RollingDay(filtered, n, meterId != "") ==>
      && InWindow(r, n - 1, n)
      && (meterId != "" ==> r.meterId == meterId)
  {
    var dayBlocks := DayBlocks(filtered, FromDayNumber(n));
    var rows := RollingDay(filtered, n, meterId != "");
    RollingDayContents(filtered, n, meterId != "");
    DayBlocksMembers(filtered, FromDayNumber(n));
    forall r | r in rows
      ensures InWindow(r, n - 1, n) && (meterId != "" ==> r.meterId == meterId)
    {
      var j :| 0 <= j < |rows| && rows[j] == r;
      if j < |dayBlocks| {
        assert dayBlocks[j] in dayBlocks;
        DayRowFields(n, 10 * |dayBlocks|, dayBlocks[j].meterId);
      } else {
        DayRowFields(n, 0, "");
      }
    }
  }

  /**
    Every row of the rolling view is dated within the 90 days ending today, with calendar
    fields in range; with a meter id given, every row carries it.
   */
  lemma RollingWindowDates(blocks: seq<BlockData>, meterId: string, today: int)
    ensures forall r :: r in RollingHeatmap(blocks, meterId, today) ==>
      && InWindow(r, today - RollingWindow, today)
      && (meterId != "" ==> r.meterId == meterId)
  {
    var filtered := FilterByMeter(blocks, meterId);
    var dayRows := DayRowsOf(filtered, meterId != "");
    if meterId != "" {
      FilterByMeterMembers(blocks, meterId);
    }
    RollingRowsFrom(dayRows, today, RollingWindow);
    forall r | r in RollingRows(dayRows, today, RollingWindow)
      ensures InWindow(r, today - RollingWindow, today) && (meterId != "" ==> r.meterId == meterId)
    {
      var n :| today - RollingWindow < n <= today && r in dayRows(n);
      DayRowShape(filtered, meterId, n, r);
      WidenWindow(r, n, today - RollingWindow, today);
    }
  }

  /** A row of one day's rows, read through the view's per-day function. */
  lemma DayRowShape(filtered: seq<BlockData>, meterId: string, n: int, r: DayData)
    requires meterId != "" ==> forall b :: b in filtered ==> b.meterId == meterId
    requires r in DayRowsOf(filtered, meterId != "")(n)
    ensures InWindow(r, n - 1, n) && (meterId != "" ==> r.meterId == meterId)
  {
    RollingDayShape(filtered, n, meterId);
  }

  /** A row dated on day `n` lies in every window containing `n`. */
  lemma WidenWindow(r: DayData, n: int, lo: int, hi: int)
    requires InWindow(r, n - 1, n)
    requires lo < n <= hi
    ensures InWindow(r, lo, hi)
  {
    var m :| n - 1 < m <= n && r.date == IsoDate(FromDayNumber(m));
  }

  /** The zero row a day without blocks gets when no filter is active. */
  function ZeroRow(n: int): DayData
  {
    DayRow(n, 0, "")
  }

  /** One row for each of the `days - 1` days before today, newest first. */
  function DayTail<T>(row: int -> T, today: int, days: nat): seq<T>
  {
    if days <= 1 then [] else DayTail(row, today, days - 1) + [row(today - (days - 1))]
  }

  /** Row j of `DayTail` belongs to the day j + 1 days before today. */
  lemma {:induction false} DayTailAt<T>(row: int -> T, today: int, days: nat)
    ensures |DayTail(row, today, days)| == if days == 0 then 0 else days - 1
    ensures forall j :: 0 <= j < |DayTail(row, today, days)| ==> DayTail(row, today, days)[j] == row(today - (j + 1))
  {
    if days > 1 {
      DayTailAt(row, today, days - 1);
    }
  }

  /**
    k >= 1 blocks all dated today and no filter: today yields k rows of value 10 * k, one
    per block in block order, and each of the 89 earlier days a single zero row.
   */
  lemma RollingToday(blocks: seq<BlockData>, today: int)
    requires |blocks| > 0
    requires forall b :: b in blocks ==> OnDay(b, FromDayNumber(today))
    ensures RollingHeatmap(blocks, "", today)
      == FanOut(MeterIds(blocks), DayRow(today, 10 * |blocks|, "")) + DayTail(ZeroRow, today, RollingWindow)
  {
    assert FilterByMeter(blocks, "") == blocks;
    TodayRows(blocks, today);
    EarlierDaysZero(blocks, today);
    RollingTail(DayRowsOf(blocks, false), ZeroRow, today, RollingWindow);
  }

  /** Blocks all dated today give today one row per block, each carrying its block's meter. */
  lemma TodayRows(blocks: seq<BlockData>, today: int)
    requires |blocks| > 0
    requires forall b :: b in blocks ==> OnDay(b, FromDayNumber(today))
    ensures DayRowsOf(blocks, false)(today) == FanOut(MeterIds(blocks), DayRow(today, 10 * |blocks|, ""))
  {
    FilterKeepsAll(blocks, (b: BlockData) => OnDay(b, FromDayNumber(today)));
    var dayBlocks := DayBlocks(blocks, FromDayNumber(today));
    assert dayBlocks == blocks;
    var rows := FanOut(MeterIds(dayBlocks), DayRow(today, 10 * |dayBlocks|, ""));
    assert RollingDay(blocks, today, false) == rows + [];
    assert rows + [] == rows;
  }

  /** Blocks all dated today leave every earlier day with its single zero row. */
  lemma EarlierDaysZero(blocks: seq<BlockData>, today: int)
    requires forall b :: b in blocks ==> OnDay(b, FromDayNumber(today))
    ensures forall n :: n < today ==> DayRowsOf(blocks, false)(n) == [ZeroRow(n)]
  {
    forall n | n < today
      ensures DayRowsOf(blocks, false)(n) == [ZeroRow(n)]
    {
      NoBlocksEarlier(blocks, today, n);
      RollingDayContents(blocks, n, false);
    }
  }

  /** Blocks all dated today have no block on an earlier day. */
  lemma NoBlocksEarlier(blocks: seq<BlockData>, today: int, n: int)
    requires forall b :: b in blocks ==> OnDay(b, FromDayNumber(today))
    requires n < today
    ensures DayBlocks(blocks, FromDayNumber(n)) == []
  {
    var d := FromDayNumber(n);
    FromDayNumberCorrect(n);
    FromDayNumberCorrect(today);
    assert FromDayNumber(today) != d;
    FilterKeepsNone(blocks, (b: BlockData) => OnDay(b, d));
  }

  /** When each earlier day gives one row, those rows follow today's rows, newest first. */
  lemma {:induction false} RollingTail<T>(dayRows: int -> seq<T>, row: int -> T, today: int, days: nat)
    requires 1 <= days
    requires forall n :: n < today ==> dayRows(n) == [row(n)]
    ensures RollingRows(dayRows, today, days) == dayRows(today) + DayTail(row, today, days)
  {
    if days == 1 {
      assert RollingRows(dayRows, today, 1) == [] + dayRows(today - 0);
    } else {
      RollingTail(dayRows, row, today, days - 1);
      var n := today - (days - 1);
      assert (dayRows(today) + DayTail(row, today, days - 1)) + dayRows(n)
        == dayRows(today) + (DayTail(row, today, days - 1) + dayRows(n));
    }
  }

  // ---------------------------------------------------------------- full-year view

  /** The year `new Date(year, 0, 1)` denotes: JavaScript reads years 0..99 as 1900..1999. */
  function JsYear(year: int): int
  {
    if 0 <= year <= 99 then 1900 + year else year
  }

  /** Sunday (0) or Saturday (6). */
  predicate IsWeekend(weekday: int)
  {
    weekday == 0 || weekday == 6
  }

  /**
    The value of day `n` in the year view when `k` of its blocks match: `min(25 * k, 100)`.
    A day without blocks gets `synthetic(n, weekend, month)`, the value the source draws
    from `Math.random` scaled by a weekend factor and a seasonal factor.
   */
  function YearValue(k: nat, n: int, synthetic: (int, bool, int) -> int): (v: int)
    ensures k > 0 ==> 25 <= v <= 100 && v % 25 == 0
    ensures k > 0 ==> (v == 100 <==> k >= 4) && (v < 100 ==> v == 25 * k)
    ensures k == 0 ==> v == synthetic(n, IsWeekend(Weekday(n)), FromDayNumber(n).month)
  {
    if k > 0 then (if 25 * k < 100 then 25 * k else 100)
    else synthetic(n, IsWeekend(Weekday(n)), FromDayNumber(n).month)
  }

  /**
    The rows of day `n` in the year view: one row carrying the filter's meter when a
    filter is active; otherwise one row per distinct meter of the blocks, in order of first
    appearance, or a single row with meter `""` when there are no blocks at all. Every row
    of the day has the same value, computed from all of that day's blocks.
   */
  function YearDay(filtered: seq<BlockData>, meterId: string, n: int, synthetic: (int, bool, int) -> int)
    : seq<DayData>
  {
    var value := YearValue(|DayBlocks(filtered, FromDayNumber(n))|, n, synthetic);
    var ids := UniqueMeterIds(filtered);
    if meterId != "" then [DayRow(n, value, meterId)]
    else if ids != [] then FanOut(ids, DayRow(n, value, ""))
    else [DayRow(n, value, "")]
  }

  /** The rows of day `n` as a function of the day. */
  function YearDaysOf(filtered: seq<BlockData>, meterId: string, synthetic: (int, bool, int) -> int)
    : int -> seq<DayData>
  {
    n => YearDay(filtered, meterId, n, synthetic)
  }

  /** The rows of `days` consecutive days starting at day `first`, oldest first. */
  function AscendingRows<T>(dayRows: int -> seq<T>, first: int, days: nat): seq<T>
  {
    if days == 0 then [] else AscendingRows(dayRows, first, days - 1) + dayRows(first + days - 1)
  }

  /** The year-view rows of `days` consecutive days starting at day `first`. */
  function YearRows(filtered: seq<BlockData>, meterId: string, synthetic: (int, bool, int) -> int, first: int, days: nat)
    : seq<DayData>
  {
    AscendingRows(YearDaysOf(filtered, meterId, synthetic), first, days)
  }

  /** What `generateMockHeatmapDataByYear(blocks, year, meterId)` returns. */
  function YearHeatmap(blocks: seq<BlockData>, year: int, meterId: string, synthetic: (int, bool, int) -> int)
    : seq<DayData>
  {
    var y := JsYear(year);
    YearRows(FilterByMeter(blocks, meterId), meterId, synthetic, YearStart(y), DaysInYear(y))
  }

  method GenerateMockHeatmapDataByYear(
    blocks: seq<BlockData>, year: int, meterId: string, synthetic: (int, bool, int) -> int)
    returns (data: seq<DayData>)
    ensures data == YearHeatmap(blocks, year, meterId, synthetic)
  {
    data := [];
    var filteredBlocks := FilterByMeter(blocks, meterId);
    var y := JsYear(year);
    YearEnds(y);
    var startDate := DayNumber(Date(y, 0, 1));
    var endDate := DayNumber(Date(y, 11, 31));
    ghost var dayRows := YearDaysOf(filteredBlocks, meterId, synthetic);
    for i := 0 to endDate + 1 - startDate
      invariant data == AscendingRows(dayRows, startDate, i)
    {
      var d := startDate + i;
      data := PushYearDay(data, filteredBlocks, meterId, d, synthetic);
      AscendingRowsNext(dayRows, startDate, i, d);
    }
    assert startDate == YearStart(y) && endDate + 1 - startDate == DaysInYear(y);
  }

  /** One iteration of the year loop: push the rows of day `n` onto `data`. */
  method PushYearDay(
    data: seq<DayData>, filteredBlocks: seq<BlockData>, meterId: string, n: int,
    synthetic: (int, bool, int) -> int)
    returns (out: seq<DayData>)
    ensures out == data + YearDaysOf(filteredBlocks, meterId, synthetic)(n)
  {
    var date := FromDayNumber(n);
    var dayBlocks := DayBlocks(filteredBlocks, date);
    var activityValue := 0;
    if |dayBlocks| > 0 {
      activityValue := if 25 * |dayBlocks| < 100 then 25 * |dayBlocks| else 100;
    } else {
      var dayOfWeek := Weekday(n);
      var isWeekend := dayOfWeek == 0 || dayOfWeek == 6;
      activityValue := synthetic(n, isWeekend, date.month);
    }
    if meterId != "" {
      out := data + [DayRow(n, activityValue, meterId)];
    } else {
      var uniqueMeterIds := UniqueMeterIds(filteredBlocks);
      if |uniqueMeterIds| > 0 {
        out := PushMeterRows(data, uniqueMeterIds, DayRow(n, activityValue, ""));
      } else {
        out := data + [DayRow(n, activityValue, "")];
      }
    }
  }

  /** The rows after i + 1 days are the rows after i days followed by the rows of day `first + i`. */
  lemma AscendingRowsNext<T>(dayRows: int -> seq<T>, first: int, i: nat, n: int)
    requires n == first + i
    ensures AscendingRows(dayRows, first, i + 1) == AscendingRows(dayRows, first, i) + dayRows(n)
  {
  }

  /** Rows each day of the year view contributes: one with a filter, else one per meter (at least one). */
  function YearRowsPerDay(filtered: seq<BlockData>, meterId: string): nat
  {
    if meterId != "" || UniqueMeterIds(filtered) == [] then 1 else |UniqueMeterIds(filtered)|
  }

  /**
    One day of the year view: with a filter, a single row carrying the filter's meter;
    without one, a row per distinct meter in order of first appearance, or one row with
    meter `""` when there are no blocks. All rows carry the day's single value.
   */
  lemma YearDayContents(filtered: seq<BlockData>, meterId: string, n: int, synthetic: (int, bool, int) -> int)
    ensures var value := YearValue(|DayBlocks(filtered, FromDayNumber(n))|, n, synthetic);
      var rows := YearDay(filtered, meterId, n, synthetic);
      var ids := UniqueMeterIds(filtered);
      && |rows| == YearRowsPerDay(filtered, meterId)
      && (meterId != "" ==> rows == [DayRow(n, value, meterId)])
      && (meterId == "" && ids != [] ==> forall j :: 0 <= j < |ids| ==> rows[j] == DayRow(n, value, ids[j]))
      && (meterId == "" && ids == [] ==> rows == [DayRow(n, value, "")])
  {
    var value := YearValue(|DayBlocks(filtered, FromDayNumber(n))|, n, synthetic);
    FanOutAt(UniqueMeterIds(filtered), DayRow(n, value, ""));
  }

  /** With `c` rows a day, `days` days make `days * c` rows. */
  lemma {:induction false} AscendingRowsLength<T>(dayRows: int -> seq<T>, first: int, days: nat, c: nat)
    requires forall n :: |dayRows(n)| == c
    ensures |AscendingRows(dayRows, first, days)| == days * c
  {
    if days > 0 {
      AscendingRowsLength(dayRows, first, days - 1, c);
      assert days * c == (days - 1) * c + c;
    }
  }

  /**
    The rows of `days` days split around day `first + i`: the days before it, its own
    rows, then the days after it.
   */
  lemma {:induction false} AscendingRowsSplit<T>(dayRows: int -> seq<T>, first: int, days: nat, i: nat)
    requires i < days
    ensures AscendingRows(dayRows, first, days)
      == AscendingRows(dayRows, first, i) + dayRows(first + i) + AscendingRows(dayRows, first + i + 1, days - i - 1)
  {
    var before, day := AscendingRows(dayRows, first, i), dayRows(first + i);
    if i == days - 1 {
      assert AscendingRows(dayRows, first + i + 1, 0) == [];
      assert AscendingRows(dayRows, first, days) == before + day;
    } else {
      var last := dayRows(first + days - 1);
      var after := AscendingRows(dayRows, first + i + 1, days - i - 2);
      AscendingRowsSplit(dayRows, first, days - 1, i);
      assert AscendingRows(dayRows, first + i + 1, days - i - 1) == after + last;
      assert AscendingRows(dayRows, first, days) == before + day + after + last;
    }
  }

  /** Every row of `days` days from `first` comes from one of those days. */
  lemma {:induction false} AscendingRowsFrom<T>(dayRows: int -> seq<T>, first: int, days: nat)
    ensures forall r :: r in AscendingRows(dayRows, first, days) ==>
      exists n :: first <= n < first + days && r in dayRows(n)
  {
    if days > 0 {
      AscendingRowsFrom(dayRows, first, days - 1);
      var m := first + days - 1;
      forall r | r in AscendingRows(dayRows, first, days)
        ensures exists n :: first <= n < first + days && r in dayRows(n)
      {
        if r !in AscendingRows(dayRows, first, days - 1) {
          assert r in dayRows(m);
        }
      }
    }
  }

  /** Every day of the year view contributes `YearRowsPerDay` rows. */
  lemma YearDayCount(filtered: seq<BlockData>, meterId: string, synthetic: (int, bool, int) -> int)
    ensures forall n :: |YearDaysOf(filtered, meterId, synthetic)(n)| == YearRowsPerDay(filtered, meterId)
  {
    forall n
      ensures |YearDaysOf(filtered, meterId, synthetic)(n)| == YearRowsPerDay(filtered, meterId)
    {
      YearDayContents(filtered, meterId, n, synthetic);
    }
  }

  /**
    The year view has `daysInYear * rowsPerDay` rows: 365 or 366 days times one row with a
    filter, or times `max(1, #distinct meters)` without one.
   */
  lemma YearLength(blocks: seq<BlockData>, year: int, meterId: string, synthetic: (int, bool, int) -> int)
    ensures |YearHeatmap(blocks, year, meterId, synthetic)|
      == (if IsLeapYear(JsYear(year)) then 366 else 365) * YearRowsPerDay(FilterByMeter(blocks, meterId), meterId)
  {
    var filtered := FilterByMeter(blocks, meterId);
    var y := JsYear(year);
    var c := YearRowsPerDay(filtered, meterId);
    var dayRows := YearDaysOf(filtered, meterId, synthetic);
    YearDayCount(filtered, meterId, synthetic);
    AscendingRowsLength(dayRows, YearStart(y), DaysInYear(y), c);
  }

  /**
    Every row of a year-view day is dated that day with its calendar fields in range. With a
    filter it carries the filter's meter; without one it carries one of the blocks' meters,
    or `""` when there are no blocks.
   */
  lemma YearDayShape(filtered: seq<BlockData>, meterId: string, n: int, synthetic: (int, bool, int) -> int)
    ensures forall r :: r in YearDay(filtered, meterId, n, synthetic) ==>
      && InWindow(r, n - 1, n)
      && (meterId != "" ==> r.meterId == meterId)
      && (meterId == "" && filtered != [] ==> r.meterId in UniqueMeterIds(filtered))
      && (meterId == "" && filtered == [] ==> r.meterId == "")
  {
    var value := YearValue(|DayBlocks(filtered, FromDayNumber(n))|, n, synthetic);
    var rows := YearDay(filtered, meterId, n, synthetic);
    var ids := UniqueMeterIds(filtered);
    YearDayContents(filtered, meterId, n, synthetic);
    forall r | r in rows
      ensures InWindow(r, n - 1, n)
      ensures meterId != "" ==> r.meterId == meterId
      ensures meterId == "" && filtered != [] ==> r.meterId in ids
      ensures meterId == "" && filtered == [] ==> r.meterId == ""
    {
      var j :| 0 <= j < |rows| && rows[j] == r;
      if meterId == "" && ids != [] {
        DayRowFields(n, value, ids[j]);
      } else {
        DayRowFields(n, value, meterId);
      }
    }
  }

  /** A row of one day, read through the year view's per-day function. */
  lemma YearRowShape(filtered: seq<BlockData>, meterId: string, synthetic: (int, bool, int) -> int, n: int, r: DayData)
    requires r in YearDaysOf(filtered, meterId, synthetic)(n)
    ensures InWindow(r, n - 1, n)
    ensures meterId != "" ==> r.meterId == meterId
    ensures meterId == "" && filtered != [] ==> r.meterId in UniqueMeterIds(filtered)
    ensures meterId == "" && filtered == [] ==> r.meterId == ""
  {
    YearDayShape(filtered, meterId, n, synthetic);
  }

  /**
    Every row of the year view is dated on a day of that year (day numbers
    `YearStart(y)` to `YearStart(y) + DaysInYear(y) - 1`), with calendar fields in range;
    with a meter id every row carries it, and without one every row carries a meter of the
    blocks, or `""` when there are no blocks.
   */
  lemma YearRowsShape(blocks: seq<BlockData>, year: int, meterId: string, synthetic: (int, bool, int) -> int, r: DayData)
    requires r in YearHeatmap(blocks, year, meterId, synthetic)
    ensures InWindow(r, YearStart(JsYear(year)) - 1, YearStart(JsYear(year)) + DaysInYear(JsYear(year)) - 1)
    ensures meterId != "" ==> r.meterId == meterId
    ensures meterId == "" && blocks != [] ==> r.meterId in UniqueMeterIds(blocks)
    ensures meterId == "" && blocks == [] ==> r.meterId == ""
  {
    var y := JsYear(year);
    var filtered := FilterByMeter(blocks, meterId);
    var dayRows := YearDaysOf(filtered, meterId, synthetic);
    AscendingRowsFrom(dayRows, YearStart(y), DaysInYear(y));
    var n :| YearStart(y) <= n < YearStart(y) + DaysInYear(y) && r in dayRows(n);
    YearRowShape(filtered, meterId, synthetic, n, r);
    WidenWindow(r, n, YearStart(y) - 1, YearStart(y) + DaysInYear(y) - 1);
  }

  // ---------------------------------------------------------------- per-meter series

  /** `blocks.filter(b => b.meterId === meterId)`: a plain comparison, with no truthiness test. */
  function MeterBlocks(blocks: seq<BlockData>, meterId: string): (r: seq<BlockData>)
    ensures |r| <= |blocks|
    ensures forall b :: b in r <==> b in blocks && b.meterId == meterId
  {
    FilterMembers(blocks, (b: BlockData) => b.meterId == meterId);
    Filter(blocks, (b: BlockData) => b.meterId == meterId)
  }

  /** `meterBlocks.length / blocks.length`: the meter's share of all blocks. */
  function ActivityLevel(blocks: seq<BlockData>, meterId: string): real
    requires blocks != []
  {
    (|MeterBlocks(blocks, meterId)| as real) / (|blocks| as real)
  }

  /**
    For a meter that occurs in the blocks, the share is positive and at most one, and it is
    one exactly when the meter owns every block.
   */
  lemma ActivityLevelRange(blocks: seq<BlockData>, meterId: string)
    requires meterId in UniqueMeterIds(blocks)
    ensures 0.0 < ActivityLevel(blocks, meterId) <= 1.0
    ensures ActivityLevel(blocks, meterId) == 1.0 <==> forall b :: b in blocks ==> b.meterId == meterId
  {
    var p := (b: BlockData) => b.meterId == meterId;
    var c, t := |MeterBlocks(blocks, meterId)|, |blocks|;
    var b :| b in blocks && b.meterId == meterId;
    assert b in MeterBlocks(blocks, meterId);
    Share(c, t);
    if forall b :: b in blocks ==> b.meterId == meterId {
      FilterKeepsAll(blocks, p);
    }
    if c == t {
      FilterFull(blocks, p);
    }
  }

  /** A part `c` of a whole `t` is a positive share of at most one, and one only when `c == t`. */
  lemma Share(c: nat, t: nat)
    requires 1 <= c <= t
    ensures 0.0 < (c as real) / (t as real) <= 1.0
    ensures (c as real) / (t as real) == 1.0 <==> c == t
  {
    var a := (c as real) / (t as real);
    assert a * (t as real) == c as real;
  }

  /** `10 + activityLevel * 20`: the hourly baseline of one meter. */
  function BaseUsage(blocks: seq<BlockData>, meterId: string): real
    requires blocks != []
  {
    10.0 + ActivityLevel(blocks, meterId) * 20.0
  }

  /** A meter's hourly baseline lies in (10, 30], reaching 30 exactly when it owns every block. */
  lemma BaseUsageRange(blocks: seq<BlockData>, meterId: string)
    requires meterId in UniqueMeterIds(blocks)
    ensures 10.0 < BaseUsage(blocks, meterId) <= 30.0
    ensures BaseUsage(blocks, meterId) == 30.0 <==> forall b :: b in blocks ==> b.meterId == meterId
  {
    ActivityLevelRange(blocks, meterId);
  }

  /** The date used when a meter's first block has an empty date (`|| "2025-01-01"`). */
  const FallbackDate := "2025-01-01"

  /** `meterBlocks[0]?.date || "2025-01-01"`. */
  function MeterDate(blocks: seq<BlockData>, meterId: string): (date: string)
    ensures date != ""
  {
    var meterBlocks := MeterBlocks(blocks, meterId);
    if meterBlocks != [] && meterBlocks[0].date != "" then meterBlocks[0].date else FallbackDate
  }

  /** `i` is the position of the first block of `meterId`. */
  predicate FirstOfMeter(blocks: seq<BlockData>, meterId: string, i: int)
  {
    && 0 <= i < |blocks|
    && blocks[i].meterId == meterId
    && forall k :: 0 <= k < i ==> blocks[k].meterId != meterId
  }

  /** A meter's date is the date of its earliest block, or the fallback when that date is empty. */
  lemma MeterDateFirst(blocks: seq<BlockData>, meterId: string, i: int)
    requires FirstOfMeter(blocks, meterId, i)
    ensures MeterDate(blocks, meterId) == if blocks[i].date != "" then blocks[i].date else FallbackDate
  {
    FilterFirst(blocks, (b: BlockData) => b.meterId == meterId, i);
  }

  /** `` `${i.toString().padStart(2, "0")}:00` ``: the label of hour `h`. */
  function FixedHour(h: nat): string
  {
    Pad(h, 2) + ":00"
  }

  /** Hours 0 to 23 are labelled with two digits that read back as the hour, then `":00"`. */
  lemma FixedHourShape(h: nat)
    requires h < 24
    ensures |FixedHour(h)| == 5 && FixedHour(h)[2..] == ":00"
    ensures AllDigits(FixedHour(h)[..2]) && DigitsValue(FixedHour(h)[..2]) == h
  {
    assert Pow10(2) == 100 by {
      assert Pow10(1) == 10;
    }
    PadRoundTrip(h, 2);
    assert FixedHour(h)[..2] == Pad(h, 2);
  }

  /** The 24 rows of one meter, hour 0 first; `usage` stands for the random draw on the baseline. */
  function MeterHours(blocks: seq<BlockData>, meterId: string, usage: (string, nat, real) -> real): (rows: seq<HourlyEnergyUsage>)
    requires blocks != []
    ensures |rows| == 24
  {
    var date := MeterDate(blocks, meterId);
    var base := BaseUsage(blocks, meterId);
    seq(24, h requires 0 <= h < 24 =>
      HourlyEnergyUsage(meterId, FixedHour(h), usage(meterId, h, base), date + " " + FixedHour(h)))
  }

  /** The rows of the meters `ids`, one group of 24 per meter, in the order of `ids`. */
  function HourlyRows(blocks: seq<BlockData>, ids: seq<string>, usage: (string, nat, real) -> real): seq<HourlyEnergyUsage>
    requires ids == [] || blocks != []
    decreases |ids|
  {
    if ids == [] then []
    else HourlyRows(blocks, ids[..|ids| - 1], usage) + MeterHours(blocks, ids[|ids| - 1], usage)
  }

  /** What `generateHourlyEnergyUsage(blocks)` returns. */
  function HourlyEnergy(blocks: seq<BlockData>, usage: (string, nat, real) -> real): seq<HourlyEnergyUsage>
  {
    HourlyRows(blocks, UniqueMeterIds(blocks), usage)
  }

  method GenerateHourlyEnergyUsage(blocks: seq<BlockData>, usage: (string, nat, real) -> real)
    returns (energyData: seq<HourlyEnergyUsage>)
    ensures energyData == HourlyEnergy(blocks, usage)
  {
    var uniqueMeterIds := UniqueMeterIds(blocks);
    energyData := [];
    for k := 0 to |uniqueMeterIds|
      invariant energyData == HourlyRows(blocks, uniqueMeterIds[..k], usage)
    {
      energyData := PushMeterHours(energyData, blocks, uniqueMeterIds[k], usage);
      assert uniqueMeterIds[..k + 1][..k] == uniqueMeterIds[..k];
    }
    assert uniqueMeterIds[..|uniqueMeterIds|] == uniqueMeterIds;
  }

  /** The body of the per-meter loop: appends the meter's 24 rows, hour 0 first. */
  method PushMeterHours(data: seq<HourlyEnergyUsage>, blocks: seq<BlockData>, meterId: string,
                        usage: (string, nat, real) -> real)
    returns (out: seq<HourlyEnergyUsage>)
    requires blocks != []
    ensures out == data + MeterHours(blocks, meterId, usage)
  {
    var fixedHours := seq(24, i requires 0 <= i => FixedHour(i));
    var baseUsage := BaseUsage(blocks, meterId);
    var date := MeterDate(blocks, meterId);
    ghost var hours := MeterHours(blocks, meterId, usage);
    out := data;
    for h := 0 to 24
      invariant out == data + hours[..h]
    {
      var hour := fixedHours[h];
      var row := HourlyEnergyUsage(meterId, hour, usage(meterId, h, baseUsage), date + " " + hour);
      assert row == hours[h];
      assert hours[..h + 1] == hours[..h] + [row];
      out := out + [row];
    }
    assert hours[..24] == hours;
  }

  lemma {:induction false} HourlyRowsLength(blocks: seq<BlockData>, ids: seq<string>, usage: (string, nat, real) -> real)
    requires ids == [] || blocks != []
    ensures |HourlyRows(blocks, ids, usage)| == 24 * |ids|
    decreases |ids|
  {
    if ids != [] {
      HourlyRowsLength(blocks, ids[..|ids| - 1], usage);
    }
  }

  /**
    Exactly 24 rows per distinct meter, so no rows at all for no blocks.
   */
  lemma HourlyLength(blocks: seq<BlockData>, usage: (string, nat, real) -> real)
    ensures |HourlyEnergy(blocks, usage)| == 24 * |UniqueMeterIds(blocks)|
    ensures HourlyEnergy(blocks, usage) == [] <==> blocks == []
  {
    HourlyRowsLength(blocks, UniqueMeterIds(blocks), usage);
  }

  lemma {:induction false} HourlyRowsAt(blocks: seq<BlockData>, ids: seq<string>, usage: (string, nat, real) -> real, k: int)
    requires ids == [] || blocks != []
    requires 0 <= k < 24 * |ids|
    ensures |HourlyRows(blocks, ids, usage)| == 24 * |ids|
    ensures HourlyRows(blocks, ids, usage)[k] == MeterHours(blocks, ids[k / 24], usage)[k % 24]
    decreases |ids|
  {
    var front := ids[..|ids| - 1];
    HourlyRowsLength(blocks, ids, usage);
    HourlyRowsLength(blocks, front, usage);
    if k < 24 * |front| {
      HourlyRowsAt(blocks, front, usage, k);
    } else {
      assert k / 24 == |ids| - 1;
    }
  }

  /**
    Row `k` of the hourly series belongs to the `k / 24`-th distinct meter (meters in order of
    first appearance) and to hour `k % 24`: its label is that hour, its timestamp is the meter's
    date, a space and the label, and its value is the draw on the meter's baseline.
   */
  lemma HourlyRowAt(blocks: seq<BlockData>, usage: (string, nat, real) -> real, k: int)
    requires 0 <= k < |HourlyEnergy(blocks, usage)|
    ensures var ids := UniqueMeterIds(blocks);
      && k / 24 < |ids| && blocks != []
      && HourlyEnergy(blocks, usage)[k] == HourlyEnergyUsage(
           ids[k / 24], FixedHour(k % 24),
           usage(ids[k / 24], k % 24, BaseUsage(blocks, ids[k / 24])),
           MeterDate(blocks, ids[k / 24]) + " " + FixedHour(k % 24))
  {
    var ids := UniqueMeterIds(blocks);
    HourlyRowsLength(blocks, ids, usage);
    HourlyRowsAt(blocks, ids, usage, k);
  }

  /** The coins of one meter: symbol and network kept, in input order; `quote` is the price draw. */
  function MeterCoins(blocks: seq<BlockData>, meterId: string, stablecoins: seq<StablecoinData>,
                      quote: (string, nat, real) -> real): (coins: seq<StablecoinData>)
    requires blocks != []
    ensures |coins| == |stablecoins|
  {
    var level := ActivityLevel(blocks, meterId);
    seq(|stablecoins|, i requires 0 <= i < |stablecoins| =>
      StablecoinData(stablecoins[i].symbol, stablecoins[i].network, quote(meterId, i, level)))
  }

  /** The record built for the meters `ids`, assigning their keys in order. */
  function StablecoinMap(blocks: seq<BlockData>, ids: seq<string>, stablecoins: seq<StablecoinData>,
                         quote: (string, nat, real) -> real): (m: map<string, seq<StablecoinData>>)
    requires ids == [] || blocks != []
    ensures m.Keys == set id | id in ids
    decreases |ids|
  {
    if ids == [] then map[]
    else
      var front, last := ids[..|ids| - 1], ids[|ids| - 1];
      assert ids == front + [last];
      StablecoinMap(blocks, front, stablecoins, quote)[last := MeterCoins(blocks, last, stablecoins, quote)]
  }

  /** What `generateMeterStablecoins(blocks, stablecoins)` returns. */
  function MeterStablecoins(blocks: seq<BlockData>, stablecoins: seq<StablecoinData>,
                            quote: (string, nat, real) -> real): map<string, seq<StablecoinData>>
  {
    StablecoinMap(blocks, UniqueMeterIds(blocks), stablecoins, quote)
  }

  method GenerateMeterStablecoins(blocks: seq<BlockData>, stablecoins: seq<StablecoinData>,
                                  quote: (string, nat, real) -> real)
    returns (meterStablecoins: map<string, seq<StablecoinData>>)
    ensures meterStablecoins == MeterStablecoins(blocks, stablecoins, quote)
  {
    var uniqueMeterIds := UniqueMeterIds(blocks);
    meterStablecoins := map[];
    for k := 0 to |uniqueMeterIds|
      invariant meterStablecoins == StablecoinMap(blocks, uniqueMeterIds[..k], stablecoins, quote)
    {
      var meterId := uniqueMeterIds[k];
      var activityLevel := ActivityLevel(blocks, meterId);
      ghost var coins := MeterCoins(blocks, meterId, stablecoins, quote);
      var values := [];
      for i := 0 to |stablecoins|
        invariant values == coins[..i]
      {
        var coin := stablecoins[i];
        values := values + [StablecoinData(coin.symbol, coin.network, quote(meterId, i, activityLevel))];
        assert coins[..i + 1] == coins[..i] + [coins[i]];
      }
      assert coins[..|stablecoins|] == coins;
      assert uniqueMeterIds[..k + 1][..k] == uniqueMeterIds[..k];
      meterStablecoins := meterStablecoins[meterId := values];
    }
    assert uniqueMeterIds[..|uniqueMeterIds|] == uniqueMeterIds;
  }

  lemma {:induction false} StablecoinMapAt(blocks: seq<BlockData>, ids: seq<string>, stablecoins: seq<StablecoinData>,
                                           quote: (string, nat, real) -> real, id: string)
    requires ids == [] || blocks != []
    requires id in ids
    ensures StablecoinMap(blocks, ids, stablecoins, quote)[id] == MeterCoins(blocks, id, stablecoins, quote)
    decreases |ids|
  {
    var front, last := ids[..|ids| - 1], ids[|ids| - 1];
    if id != last {
      assert ids == front + [last];
      StablecoinMapAt(blocks, front, stablecoins, quote, id);
    }
  }

  /** The keys are exactly the distinct meters of the blocks; no blocks give an empty record. */
  lemma StablecoinKeys(blocks: seq<BlockData>, stablecoins: seq<StablecoinData>, quote: (string, nat, real) -> real)
    ensures forall id :: id in MeterStablecoins(blocks, stablecoins, quote) <==> exists b :: b in blocks && b.meterId == id
    ensures MeterStablecoins(blocks, stablecoins, quote) == map[] <==> blocks == []
  {
    var ids := UniqueMeterIds(blocks);
    var m := MeterStablecoins(blocks, stablecoins, quote);
    assert m.Keys == set id | id in ids;
    if blocks != [] {
      assert ids[0] in m;
    }
  }

  /**
    Each meter maps to one entry per input coin, in the same order, with the coin's symbol and
    network and the price drawn for that meter's share of the blocks.
   */
  lemma StablecoinValues(blocks: seq<BlockData>, stablecoins: seq<StablecoinData>,
                         quote: (string, nat, real) -> real, id: string)
    requires id in MeterStablecoins(blocks, stablecoins, quote)
    ensures blocks != []
    ensures |MeterStablecoins(blocks, stablecoins, quote)[id]| == |stablecoins|
    ensures forall i :: 0 <= i < |stablecoins| ==>
      MeterStablecoins(blocks, stablecoins, quote)[id][i]
        == StablecoinData(stablecoins[i].symbol, stablecoins[i].network, quote(id, i, ActivityLevel(blocks, id)))
  {
    var ids := UniqueMeterIds(blocks);
    assert id in ids;
    StablecoinMapAt(blocks, ids, stablecoins, quote, id);
  }
}
