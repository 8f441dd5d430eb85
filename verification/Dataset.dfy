/** Historical datasets: samples bucketed into rows, one aggregate per selected column. */
module Dataset {
  import opened Foundation
  import opened Arithmetic
  import opened Decimal

  datatype Attribute = Attribute(id: nat, index: nat)

  datatype Quality = Unavailable | Valid | Invalid | OutOfRange | TimedOut | ArithmeticError

  datatype Calculation = Minimum | Maximum | Average | First | Last | Delta

  datatype Sample = Sample(at: int, sequence: nat, attribute: Attribute, value: int, quality: Quality, epoch: Option<nat>)

  datatype Selection = Selection(attribute: Attribute, calculation: Calculation)

  datatype Cell = Cell(
    value: Option<string>, quality: Quality, contributing: nat, expected: nat, complete: bool, continuity: bool,
    epoch: Option<nat>)

  datatype Row = Row(start: int, end: int, cells: seq<Cell>)

  datatype Error = InvalidIdentity | IncompatibleIntervals | NoSelection | UnsupportedSelection | DuplicateSelection

  // ---------------------------------------------------------------- order and totals

  /** Time, then source sequence. Buckets hold one attribute, so the generator's further tie-breaks change nothing. */
  predicate Before(a: Sample, b: Sample) {
    a.at < b.at || (a.at == b.at && a.sequence < b.sequence)
  }

  function Insert(s: seq<Sample>, x: Sample): (r: seq<Sample>)
    ensures multiset(r) == multiset(s) + multiset{x}
  {
    if s == [] then [x]
    else if !Before(x, s[|s| - 1]) then s + [x]
    else
      assert s == s[..|s| - 1] + [s[|s| - 1]];
      Insert(s[..|s| - 1], x) + [s[|s| - 1]]
  }

  function Sorted(s: seq<Sample>): (r: seq<Sample>)
    ensures multiset(r) == multiset(s)
  {
    if s == [] then []
    else
      assert s == s[..|s| - 1] + [s[|s| - 1]];
      Insert(Sorted(s[..|s| - 1]), s[|s| - 1])
  }

  ghost predicate Ordered(s: seq<Sample>) {
    forall i, j :: 0 <= i < j < |s| ==> !Before(s[j], s[i])
  }

  lemma {:induction false} InsertOrdered(s: seq<Sample>, x: Sample)
    requires Ordered(s)
    ensures Ordered(Insert(s, x))
    decreases |s|
  {
    if s != [] && Before(x, s[|s| - 1]) {
      var init, last := s[..|s| - 1], s[|s| - 1];
      InsertOrdered(init, x);
      var r := Insert(init, x);
      forall i | 0 <= i < |r| ensures !Before(last, r[i]) {
        assert r[i] in multiset(r);
        assert r[i] == x || r[i] in init;
      }
    }
  }

  lemma {:induction false} SortedOrdered(s: seq<Sample>)
    ensures Ordered(Sorted(s))
    decreases |s|
  {
    if s != [] {
      SortedOrdered(s[..|s| - 1]);
      InsertOrdered(Sorted(s[..|s| - 1]), s[|s| - 1]);
    }
  }

  /** The sum of a measure over samples. */
  ghost function Total(f: Sample -> int, s: seq<Sample>): int {
    if s == [] then 0 else Total(f, s[..|s| - 1]) + f(s[|s| - 1])
  }

  lemma {:induction false} TotalInsert(f: Sample -> int, s: seq<Sample>, x: Sample)
    ensures Total(f, Insert(s, x)) == Total(f, s) + f(x)
    decreases |s|
  {
    var r := Insert(s, x);
    if s != [] && Before(x, s[|s| - 1]) {
      var init := s[..|s| - 1];
      TotalInsert(f, init, x);
      assert r[..|r| - 1] == Insert(init, x);
    } else {
      assert r[..|r| - 1] == s;
    }
  }

  lemma {:induction false} TotalSorted(f: Sample -> int, s: seq<Sample>)
    ensures Total(f, Sorted(s)) == Total(f, s)
    decreases |s|
  {
    if s != [] {
      TotalSorted(f, s[..|s| - 1]);
      TotalInsert(f, Sorted(s[..|s| - 1]), s[|s| - 1]);
    }
  }

  // ---------------------------------------------------------------- selection of samples

  predicate InBucket(s: Sample, attribute: Attribute, start: int, end: int) {
    s.attribute == attribute && start <= s.at < end
  }

  function Bucket(samples: seq<Sample>, attribute: Attribute, start: int, end: int): seq<Sample> {
    if samples == [] then []
    else
      var last := samples[|samples| - 1];
      Bucket(samples[..|samples| - 1], attribute, start, end) + if InBucket(last, attribute, start, end) then [last] else []
  }

  function ValidOf(s: seq<Sample>): seq<Sample> {
    if s == [] then []
    else ValidOf(s[..|s| - 1]) + if s[|s| - 1].quality == Valid then [s[|s| - 1]] else []
  }

  /** One for each valid sample of the attribute inside the window. */
  ghost function Contributes(attribute: Attribute, start: int, end: int): Sample -> int {
    (s: Sample) => if InBucket(s, attribute, start, end) && s.quality == Valid then 1 else 0
  }

  ghost function Count(samples: seq<Sample>, attribute: Attribute, start: int, end: int): int {
    Total(Contributes(attribute, start, end), samples)
  }

  lemma ValidSnoc(s: seq<Sample>, x: Sample)
    ensures ValidOf(s + [x]) == ValidOf(s) + if x.quality == Valid then [x] else []
  {
    assert (s + [x])[..|s|] == s;
  }

  lemma {:induction false} BucketCount(samples: seq<Sample>, attribute: Attribute, start: int, end: int)
    ensures |ValidOf(Bucket(samples, attribute, start, end))| == Count(samples, attribute, start, end)
    decreases |samples|
  {
    if samples != [] {
      var init, last := samples[..|samples| - 1], samples[|samples| - 1];
      BucketCount(init, attribute, start, end);
      if InBucket(last, attribute, start, end) {
        ValidSnoc(Bucket(init, attribute, start, end), last);
      } else {
        assert Bucket(samples, attribute, start, end) == Bucket(init, attribute, start, end);
      }
    }
  }

  lemma {:induction false} CountSplits(samples: seq<Sample>, attribute: Attribute, start: int, middle: int, end: int)
    requires start <= middle <= end
    ensures Count(samples, attribute, start, end) == Count(samples, attribute, start, middle) + Count(samples, attribute, middle, end)
    decreases |samples|
  {
    if samples != [] {
      CountSplits(samples[..|samples| - 1], attribute, start, middle, end);
    }
  }

  // ---------------------------------------------------------------- aggregates

  function Text(v: int): string {
    if v < 0 then "-" + Print(-v) else Print(v)
  }

  ghost function Sum(s: seq<Sample>): int {
    Total((x: Sample) => x.value, s)
  }

  ghost predicate Earliest(x: Sample, s: seq<Sample>) {
    x in s && forall y :: y in s ==> x.at < y.at || (x.at == y.at && x.sequence <= y.sequence)
  }

  ghost predicate Latest(x: Sample, s: seq<Sample>) {
    x in s && forall y :: y in s ==> y.at < x.at || (y.at == x.at && y.sequence <= x.sequence)
  }

  ghost predicate Least(x: Sample, s: seq<Sample>) {
    x in s && forall y :: y in s ==> x.value <= y.value
  }

  ghost predicate Greatest(x: Sample, s: seq<Sample>) {
    x in s && forall y :: y in s ==> y.value <= x.value
  }

  function EmptyQuality(s: seq<Sample>, i: nat): Quality
    requires i <= |s|
    decreases |s| - i
  {
    if i == |s| then Unavailable else if s[i].quality != Unavailable then s[i].quality else EmptyQuality(s, i + 1)
  }

  /** What the cell's value says about the valid samples of its bucket. */
  ghost predicate ValueMeans(cell: Cell, valid: seq<Sample>, calculation: Calculation)
  {
    match calculation
    case Minimum => cell.quality == Valid && exists x :: Least(x, valid) && cell.value == Some(Text(x.value))
    case Maximum => cell.quality == Valid && exists x :: Greatest(x, valid) && cell.value == Some(Text(x.value))
    case Average =>
      && cell.quality == Valid && cell.value.Some? && |valid| > 0 && Canonical(cell.value.value)
      && Meaning(cell.value.value) == Some(TruncatedMillionths(Sum(valid), |valid|))
    case First =>
      cell.quality == Valid && exists x :: Earliest(x, valid) && cell.value == Some(Text(x.value)) && cell.epoch == x.epoch
    case Last =>
      cell.quality == Valid && exists x :: Latest(x, valid) && cell.value == Some(Text(x.value)) && cell.epoch == x.epoch
    case Delta => exists x, y :: Earliest(x, valid) && Latest(y, valid) && DeltaMeans(cell, x, y)
  }

  /** A difference only within one reset epoch. */
  ghost predicate DeltaMeans(cell: Cell, x: Sample, y: Sample) {
    if x.epoch.Some? && x.epoch == y.epoch
    then cell.quality == Valid && cell.continuity && cell.epoch == y.epoch && cell.value == Some(Text(y.value - x.value))
    else cell.quality == Unavailable && !cell.continuity && cell.value == None
  }

  ghost predicate CellMeans(cell: Cell, bucket: seq<Sample>, calculation: Calculation, expected: nat) {
    var valid := ValidOf(bucket);
    && cell.expected == expected && cell.contributing == |valid|
    && (cell.complete <==> expected != 0 && |valid| >= expected)
    && (valid == [] ==> cell.value == None && cell.quality == EmptyQuality(bucket, 0))
    && (valid != [] ==> ValueMeans(cell, valid, calculation))
    && (calculation != Delta ==> cell.continuity)
  }

  /** std::ranges::min_element or max_element: the first extreme one. */
  method Extreme(s: seq<Sample>, greatest: bool) returns (x: Sample)
    requires s != []
    ensures if greatest then Greatest(x, s) else Least(x, s)
  {
    x := s[0];
    for i := 1 to |s|
      invariant x in s
      invariant forall k :: 0 <= k < i ==> if greatest then s[k].value <= x.value else x.value <= s[k].value
    {
      if (greatest && x.value < s[i].value) || (!greatest && s[i].value < x.value) {
        x := s[i];
      }
    }
  }

  method AverageOf(s: seq<Sample>) returns (text: string)
    requires s != []
    ensures Canonical(text) && Meaning(text) == Some(TruncatedMillionths(Sum(s), |s|))
  {
    hide Canonical, Meaning, TruncatedMillionths;
    var sum := 0;
    for i := 0 to |s|
      invariant sum == Sum(s[..i])
    {
      assert s[..i + 1][..i] == s[..i];
      sum := sum + s[i].value;
    }
    assert s[..|s|] == s;
    var r := DecimalRatio(sum, |s|);
    text := r.value;
  }

  lemma SortedEnds(valid: seq<Sample>)
    requires valid != []
    ensures
      var s := Sorted(valid);
      && |s| == |valid| && Earliest(s[0], valid) && Latest(s[|s| - 1], valid)
      && (forall x :: x in s <==> x in valid) && Sum(s) == Sum(valid)
  {
    var s := Sorted(valid);
    SortedOrdered(valid);
    TotalSorted((x: Sample) => x.value, valid);
    assert |multiset(s)| == |multiset(valid)|;
    forall x ensures x in s <==> x in valid {
      assert x in multiset(s) <==> x in multiset(valid);
    }
  }

  method Aggregate(bucket: seq<Sample>, calculation: Calculation, expected: nat) returns (cell: Cell)
    ensures CellMeans(cell, bucket, calculation, expected)
  {
    hide Canonical, Meaning, TruncatedMillionths, Sorted, Sum, Earliest, Latest, Least, Greatest, Text, ValueMeans;
    var valid: seq<Sample> := [];
    for i := 0 to |bucket|
      invariant valid == ValidOf(bucket[..i])
    {
      assert bucket[..i + 1][..i] == bucket[..i];
      if bucket[i].quality == Valid {
        valid := valid + [bucket[i]];
      }
    }
    assert bucket[..|bucket|] == bucket;
    cell := Cell(None, Unavailable, |valid|, expected, expected != 0 && |valid| >= expected, true, None);
    if valid == [] {
      return cell.(quality := EmptyQuality(bucket, 0));
    }
    cell := Computed(cell, valid, calculation);
  }

  method Computed(blank: Cell, valid: seq<Sample>, calculation: Calculation) returns (cell: Cell)
    requires valid != [] && blank.continuity
    ensures ValueMeans(cell, valid, calculation) && (calculation != Delta ==> cell.continuity)
    ensures cell.expected == blank.expected && cell.contributing == blank.contributing && cell.complete == blank.complete
  {
    hide Canonical, Meaning, TruncatedMillionths, Sorted, Sum, Earliest, Latest, Text;
    var sorted := Sorted(valid);
    SortedEnds(valid);
    var front, back := sorted[0], sorted[|sorted| - 1];
    cell := blank.(quality := Valid);
    match calculation {
      case Minimum =>
        var x := Extreme(sorted, false);
        assert Least(x, valid);
        cell := cell.(value := Some(Text(x.value)));
      case Maximum =>
        var x := Extreme(sorted, true);
        assert Greatest(x, valid);
        cell := cell.(value := Some(Text(x.value)));
      case Average =>
        var text := AverageOf(sorted);
        cell := cell.(value := Some(text));
      case First => cell := cell.(value := Some(Text(front.value)), epoch := front.epoch);
      case Last => cell := cell.(value := Some(Text(back.value)), epoch := back.epoch);
      case Delta =>
        if front.epoch.None? || back.epoch.None? || front.epoch != back.epoch {
          cell := cell.(value := None, quality := Unavailable, continuity := false);
        } else {
          cell := cell.(value := Some(Text(back.value - front.value)), epoch := back.epoch);
        }
        assert DeltaMeans(cell, front, back);
    }
  }

  // ---------------------------------------------------------------- rows

  datatype Job = Job(
    id: string, revision: nat, product: string, device: string, generationInterval: int, rowInterval: int,
    selections: seq<Selection>)

  predicate Identified(job: Job) {
    && 0 < |job.id| <= 128 && job.revision != 0 && job.product != "" && job.device != ""
    && forall i :: 0 <= i < |job.id| ==> IdCharacter(job.id[i])
  }

  predicate IdCharacter(c: char) {
    'a' <= c <= 'z' || 'A' <= c <= 'Z' || '0' <= c <= '9' || c == '-' || c == '_'
  }

  ghost predicate IntervalsFit(job: Job, start: int, end: int) {
    start < end && end - start == job.generationInterval && job.rowInterval > 0 && job.generationInterval % job.rowInterval == 0
  }

  /** The identity of a column is the attribute's number, not its index, and the calculation. */
  ghost predicate ColumnsDiffer(s: seq<Selection>) {
    forall i, j :: 0 <= i < j < |s| ==> (s[i].attribute.id, s[i].calculation) != (s[j].attribute.id, s[j].calculation)
  }

  ghost predicate RowMeans(row: Row, samples: seq<Sample>, selections: seq<Selection>, expected: (Attribute, int, int) -> nat) {
    && |row.cells| == |selections|
    && forall c :: 0 <= c < |selections| ==>
         CellMeans(row.cells[c], Bucket(samples, selections[c].attribute, row.start, row.end), selections[c].calculation,
                   expected(selections[c].attribute, row.start, row.end))
  }

  /** Rows laid end to end, each one row interval long. */
  ghost predicate RowsTile(rows: seq<Row>, start: int, interval: int) {
    forall i :: 0 <= i < |rows| ==> rows[i].start == start + i * interval && rows[i].end == start + (i + 1) * interval
  }

  method CheckSelections(selections: seq<Selection>, supported: Selection -> bool) returns (r: Result<(), Error>)
    ensures r.Ok? <==> (ColumnsDiffer(selections) && forall i :: 0 <= i < |selections| ==> supported(selections[i]))
  {
    var seen: set<(nat, Calculation)> := {};
    for i := 0 to |selections|
      invariant seen == set k | 0 <= k < i :: (selections[k].attribute.id, selections[k].calculation)
      invariant ColumnsDiffer(selections[..i]) && forall k :: 0 <= k < i ==> supported(selections[k])
    {
      if !supported(selections[i]) {
        return Err(UnsupportedSelection);
      }
      var column := (selections[i].attribute.id, selections[i].calculation);
      if column in seen {
        return Err(DuplicateSelection);
      }
      seen := seen + {column};
    }
    assert selections[..|selections|] == selections;
    return Ok(());
  }

  method FillBucket(samples: seq<Sample>, attribute: Attribute, start: int, end: int) returns (bucket: seq<Sample>)
    ensures bucket == Bucket(samples, attribute, start, end)
  {
    bucket := [];
    for i := 0 to |samples|
      invariant bucket == Bucket(samples[..i], attribute, start, end)
    {
      assert samples[..i + 1][..i] == samples[..i];
      if InBucket(samples[i], attribute, start, end) {
        bucket := bucket + [samples[i]];
      }
    }
    assert samples[..|samples|] == samples;
  }

  method FillRow(samples: seq<Sample>, selections: seq<Selection>, start: int, end: int, expected: (Attribute, int, int) -> nat)
    returns (row: Row)
    ensures row.start == start && row.end == end && RowMeans(row, samples, selections, expected)
  {
    hide CellMeans, Bucket;
    var cells: seq<Cell> := [];
    for c := 0 to |selections|
      invariant |cells| == c
      invariant forall k :: 0 <= k < c ==>
        CellMeans(cells[k], Bucket(samples, selections[k].attribute, start, end), selections[k].calculation,
                  expected(selections[k].attribute, start, end))
    {
      var bucket := FillBucket(samples, selections[c].attribute, start, end);
      var cell := Aggregate(bucket, selections[c].calculation, expected(selections[c].attribute, start, end));
      cells := cells + [cell];
    }
    return Row(start, end, cells);
  }

  /** Rows that tile the window exactly, every cell meaning what its column says about its own slice of the samples. */
  method Generate(job: Job, start: int, end: int, samples: seq<Sample>, supported: Selection -> bool,
                  expected: (Attribute, int, int) -> nat)
    returns (r: Result<seq<Row>, Error>)
    ensures r.Ok? <==> (&& Identified(job) && IntervalsFit(job, start, end) && job.selections != [] && ColumnsDiffer(job.selections)
                        && forall i :: 0 <= i < |job.selections| ==> supported(job.selections[i]))
    ensures r.Ok? ==> RowsTile(r.value, start, job.rowInterval) && start + |r.value| * job.rowInterval == end
    ensures r.Ok? ==> forall i :: 0 <= i < |r.value| ==> RowMeans(r.value[i], Sorted(samples), job.selections, expected)
  {
    hide RowMeans, Sorted, ColumnsDiffer, Identified;
    if !Identified(job) {
      return Err(InvalidIdentity);
    }
    if start >= end || end - start != job.generationInterval || job.rowInterval <= 0 ||
       job.generationInterval % job.rowInterval != 0 {
      return Err(IncompatibleIntervals);
    }
    if job.selections == [] {
      return Err(NoSelection);
    }
    var checked := CheckSelections(job.selections, supported);
    if checked.Err? {
      return Err(checked.error);
    }
    var sorted := Sorted(samples);
    var rows: seq<Row> := [];
    ghost var count := (end - start) / job.rowInterval;
    WholeRows(start, end, job.rowInterval);
    var from := start;
    while from < end
      invariant from == start + |rows| * job.rowInterval && |rows| <= count
      invariant RowsTile(rows, start, job.rowInterval)
      invariant forall i :: 0 <= i < |rows| ==> RowMeans(rows[i], sorted, job.selections, expected)
      decreases count - |rows|
    {
      NotPastTheEnd(start, end, job.rowInterval, |rows|, count);
      var row := FillRow(sorted, job.selections, from, from + job.rowInterval, expected);
      NextRow(|rows|, job.rowInterval);
      rows := rows + [row];
      from := from + job.rowInterval;
    }
    NotPastTheEnd(start, end, job.rowInterval, |rows|, count);
    return Ok(rows);
  }

  lemma NextRow(n: nat, interval: int)
    ensures (n + 1) * interval == n * interval + interval
  {
  }

  lemma WholeRows(start: int, end: int, interval: int)
    requires interval > 0 && start < end && (end - start) % interval == 0
    ensures start + (end - start) / interval * interval == end && (end - start) / interval >= 0
  {
  }

  lemma NotPastTheEnd(start: int, end: int, interval: int, n: nat, count: int)
    requires interval > 0 && start + count * interval == end && n <= count
    ensures start + n * interval < end <==> n < count
  {
    if n < count {
      assert (n + 1) * interval <= count * interval;
      NextRow(n, interval);
    }
  }

  // ---------------------------------------------------------------- conservation

  ghost function Contributions(rows: seq<Row>, column: nat): int
    requires forall i :: 0 <= i < |rows| ==> column < |rows[i].cells|
  {
    if rows == [] then 0 else Contributions(rows[..|rows| - 1], column) + rows[|rows| - 1].cells[column].contributing
  }

  ghost predicate RowsMean(rows: seq<Row>, samples: seq<Sample>, selections: seq<Selection>, expected: (Attribute, int, int) -> nat) {
    forall i :: 0 <= i < |rows| ==> RowMeans(rows[i], samples, selections, expected)
  }

  lemma {:induction false} RowsCount(rows: seq<Row>, samples: seq<Sample>, selections: seq<Selection>,
                                     expected: (Attribute, int, int) -> nat, start: int, interval: int, column: nat)
    requires interval > 0 && RowsTile(rows, start, interval) && RowsMean(rows, samples, selections, expected)
    requires column < |selections|
    ensures forall i :: 0 <= i < |rows| ==> column < |rows[i].cells|
    ensures Contributions(rows, column) == Count(samples, selections[column].attribute, start, start + |rows| * interval)
    decreases |rows|
  {
    hide Count, CellMeans, Bucket;
    var attribute := selections[column].attribute;
    if rows == [] {
      NoneInEmptyWindow(samples, attribute, start);
    } else {
      var init, last := rows[..|rows| - 1], rows[|rows| - 1];
      RowsCount(init, samples, selections, expected, start, interval, column);
      assert RowMeans(last, samples, selections, expected);
      CellCount(last.cells[column], samples, selections[column], last.start, last.end,
                expected(attribute, last.start, last.end));
      Spans(|init|, interval);
      CountSplits(samples, attribute, start, last.start, last.end);
    }
  }

  lemma Spans(n: nat, interval: int)
    requires interval > 0
    ensures 0 <= n * interval <= (n + 1) * interval
  {
  }

  lemma CellCount(cell: Cell, samples: seq<Sample>, selection: Selection, start: int, end: int, expected: nat)
    requires CellMeans(cell, Bucket(samples, selection.attribute, start, end), selection.calculation, expected)
    ensures cell.contributing == Count(samples, selection.attribute, start, end)
  {
    hide ValueMeans;
    BucketCount(samples, selection.attribute, start, end);
  }

  lemma {:induction false} NoneInEmptyWindow(samples: seq<Sample>, attribute: Attribute, start: int)
    ensures Count(samples, attribute, start, start) == 0
    decreases |samples|
  {
    if samples != [] {
      NoneInEmptyWindow(samples[..|samples| - 1], attribute, start);
    }
  }

  /** Each column's contributing counts add up to the valid samples of its attribute in the artifact window. */
  lemma SamplesConserved(rows: seq<Row>, samples: seq<Sample>, selections: seq<Selection>,
                         expected: (Attribute, int, int) -> nat, start: int, end: int, interval: int, column: nat)
    requires interval > 0 && RowsTile(rows, start, interval) && start + |rows| * interval == end
    requires RowsMean(rows, Sorted(samples), selections, expected) && column < |selections|
    ensures forall i :: 0 <= i < |rows| ==> column < |rows[i].cells|
    ensures Contributions(rows, column) == Count(samples, selections[column].attribute, start, end)
  {
    RowsCount(rows, Sorted(samples), selections, expected, start, interval, column);
    TotalSorted(Contributes(selections[column].attribute, start, end), samples);
  }

  /** Every instant of the window falls in exactly one row. */
  lemma ExactlyOneRow(rows: seq<Row>, start: int, end: int, interval: int, t: int)
    requires interval > 0 && RowsTile(rows, start, interval) && start + |rows| * interval == end && start <= t < end
    ensures 0 <= (t - start) / interval < |rows|
    ensures forall i :: 0 <= i < |rows| ==> (rows[i].start <= t < rows[i].end <==> i == (t - start) / interval)
  {
    var q := (t - start) / interval;
    assert t - start == q * interval + (t - start) % interval;
    if q >= |rows| {
      ProductOrder(|rows|, q, interval);
    }
    forall i | 0 <= i < |rows| ensures rows[i].start <= t < rows[i].end <==> i == q {
      NextRow(i, interval);
      if i < q {
        ProductOrder(i + 1, q, interval);
      } else if i > q {
        NextRow(q, interval);
        ProductOrder(q + 1, i, interval);
      }
    }
  }

  /** A printed value denotes itself. */
  lemma TextDenotes(v: int)
    ensures Meaning(Text(v)) == Some(v * 1_000_000) && Canonical(Text(v))
  {
    var n := if v < 0 then -v else v;
    var t := Decimal.Text(n, "");
    TextMeans(n, "");
    ZeroFraction(n);
    hide Canonical, Magnitude, Millionths;
    assert t == Print(n) + "" == Print(n);
    if v < 0 {
      NegativeMeans(t);
    }
  }

  lemma ZeroFraction(n: nat)
    ensures Millionths(n, "") == n * 1_000_000
  {
    assert Pow10(3) == 1000;
    assert Pow10(6) == 1000 * Pow10(3);
  }

  /** Without a valid sample a cell has the first quality that says more than unavailable, if any does. */
  lemma {:induction false} EmptyQualityMeans(s: seq<Sample>, i: nat)
    requires i <= |s|
    ensures EmptyQuality(s, i) == Unavailable <==> forall k :: i <= k < |s| ==> s[k].quality == Unavailable
    ensures EmptyQuality(s, i) != Unavailable ==>
              exists k :: i <= k < |s| && s[k].quality == EmptyQuality(s, i) && forall j :: i <= j < k ==> s[j].quality == Unavailable
    decreases |s| - i
  {
    if i < |s| && s[i].quality == Unavailable {
      EmptyQualityMeans(s, i + 1);
    } else if i < |s| {
      assert s[i].quality == EmptyQuality(s, i);
    }
  }

  /** A row's samples are those of the attribute from its start up to, and not including, its end. */
  lemma BucketMeans(s: Sample, attribute: Attribute, start: int, end: int)
    ensures InBucket(s, attribute, start, end) <==>
              s.attribute.id == attribute.id && s.attribute.index == attribute.index && start <= s.at <= end - 1
  {
  }
}
