/** 20-internet-avaibility/internet-avaibility.py: a picture of internet availability
    over the past five weeks. The pings logged once a minute become a code per minute
    (future, outside the data, recorded, missing), laid out as five 168 x 60 grids,
    one row per hour and one column per minute, newest day on top. */
module InternetAvailability {
  import opened Common
  import opened Frames
  import ImageResponse
  import Base64

  // covert_to_numeric(df, drop_nonnumeric)

  /** `.str` can be used on the column: it holds text, or nothing but missing values
      (a column of numbers or times raises AttributeError). */
  predicate TextLike(cells: seq<Cell>) {
    (exists i :: 0 <= i < |cells| && cells[i].Text?) || (forall i :: 0 <= i < |cells| ==> cells[i].Missing?)
  }

  /** `df[column].str` can be taken for the j-th column: its name is unique (a
      repeated name gives a frame, which has no `.str`) and it is text-like. */
  predicate Accessible(cols: seq<Column>, j: int)
    requires 0 <= j < |cols|
  {
    UniqueName(Names(cols), j) && TextLike(cols[j].cells)
  }

  /** `.str.strip()` on one value: text is stripped, anything else becomes missing. */
  function StripCell(c: Cell): (r: Cell)
    ensures r.Text? || r.Missing?
  {
    if c.Text? then Text(Strip(c.s)) else Missing
  }

  function StripCells(cells: seq<Cell>): (r: seq<Cell>)
    ensures |r| == |cells| && forall i :: 0 <= i < |cells| ==> r[i] == StripCell(cells[i])
  {
    seq(|cells|, i requires 0 <= i < |cells| => StripCell(cells[i]))
  }

  /** The column is numeric text: every value is text that, stripped, is blank or a number. */
  predicate NumericText(cells: seq<Cell>, parse: string -> Option<real>) {
    forall i :: 0 <= i < |cells| ==>
      cells[i].Text? && (Strip(cells[i].s) == "" || parse(Strip(cells[i].s)).Some?)
  }

  /** The converted values with the blank ones set to 0 (`converted_data_masked`). */
  function Masked(stripped: seq<Cell>, parse: string -> Option<real>): (r: seq<Cell>)
    ensures |r| == |stripped|
    ensures forall i :: 0 <= i < |stripped| ==>
              r[i] == if stripped[i] == Text("") then Num(0.0) else ToNumeric(stripped[i], parse)
  {
    seq(|stripped|, i requires 0 <= i < |stripped| =>
      if stripped[i] == Text("") then Num(0.0) else ToNumeric(stripped[i], parse))
  }

  /** The test of line 42: the masked conversion has no missing value. It holds
      exactly for numeric text. */
  function IsNumeric(col: Column, parse: string -> Option<real>): (b: bool)
    ensures b <==> NumericText(col.cells, parse)
  {
    var masked := Masked(StripCells(col.cells), parse);
    NoneMissing(masked);
    CountMissing(masked) == 0
  }

  /** One column after conversion: numeric text becomes its numbers, a blank value
      becoming missing (not 0); any other column becomes its stripped text. The name
      stays. */
  function ConvertColumn(col: Column, parse: string -> Option<real>): (r: Column)
    ensures r.name == col.name && |r.cells| == |col.cells|
  {
    var stripped := StripCells(col.cells);
    if IsNumeric(col, parse) then Column(col.name, ToNumericAll(stripped, parse))
    else Column(col.name, stripped)
  }

  /** What a converted column holds, value by value. */
  lemma ConvertColumnCells(col: Column, parse: string -> Option<real>)
    ensures var r := ConvertColumn(col, parse);
            && (NumericText(col.cells, parse) ==>
                  forall i :: 0 <= i < |col.cells| ==>
                    r.cells[i] == if Strip(col.cells[i].s) == "" then Missing
                                  else Num(parse(Strip(col.cells[i].s)).value))
            && (!NumericText(col.cells, parse) ==> r.cells == StripCells(col.cells))
  {
  }

  function ConvertAll(cols: seq<Column>, parse: string -> Option<real>): (r: seq<Column>)
    ensures |r| == |cols| && forall j :: 0 <= j < |cols| ==> r[j] == ConvertColumn(cols[j], parse)
  {
    seq(|cols|, j requires 0 <= j < |cols| => ConvertColumn(cols[j], parse))
  }

  /** The names collected in `columns_to_drop`, in column order. */
  function NonNumericNames(cols: seq<Column>, parse: string -> Option<real>): seq<string>
  {
    if cols == [] then []
    else (if IsNumeric(cols[0], parse) then [] else [cols[0].name]) + NonNumericNames(cols[1..], parse)
  }

  /** Only names of columns of the frame are collected. */
  lemma {:induction false} NonNumericNamesOfColumns(cols: seq<Column>, parse: string -> Option<real>)
    ensures forall n :: n in NonNumericNames(cols, parse) ==> exists j :: 0 <= j < |cols| && cols[j].name == n
  {
    if cols != [] {
      NonNumericNamesOfColumns(cols[1..], parse);
      assert forall j :: 1 <= j < |cols| ==> cols[j] == cols[1..][j - 1];
    }
  }

  /** df.drop(columns=names): every column whose name is listed goes, the rest keep
      their order. */
  function RemoveNamed(cols: seq<Column>, names: seq<string>): (r: seq<Column>)
    ensures forall c :: c in r ==> c in cols && c.name !in names
  {
    if cols == [] then []
    else (if cols[0].name in names then [] else [cols[0]]) + RemoveNamed(cols[1..], names)
  }

  /** The converted numeric columns, in their order: what remains when non-numeric
      columns are dropped. */
  function KeepNumeric(cols: seq<Column>, parse: string -> Option<real>): (r: seq<Column>)
    ensures forall c :: c in r ==> exists j :: 0 <= j < |cols| && NumericText(cols[j].cells, parse)
                                              && c == ConvertColumn(cols[j], parse)
  {
    if cols == [] then []
    else
      var rest := KeepNumeric(cols[1..], parse);
      assert forall j :: 1 <= j < |cols| ==> cols[j] == cols[1..][j - 1];
      (if IsNumeric(cols[0], parse) then [ConvertColumn(cols[0], parse)] else []) + rest
  }

  lemma {:induction false} RemoveNamedIgnores(cols: seq<Column>, n: string, names: seq<string>)
    requires forall j :: 0 <= j < |cols| ==> cols[j].name != n
    ensures RemoveNamed(cols, [n] + names) == RemoveNamed(cols, names)
  {
    if cols != [] {
      RemoveNamedIgnores(cols[1..], n, names);
    }
  }

  /** Dropping the collected names from the converted columns keeps exactly the
      numeric columns, converted, in their order (column names being distinct). */
  lemma {:induction false} DropKeepsNumeric(cols: seq<Column>, parse: string -> Option<real>)
    requires DistinctNames(cols)
    ensures RemoveNamed(ConvertAll(cols, parse), NonNumericNames(cols, parse)) == KeepNumeric(cols, parse)
  {
    if cols != [] {
      var c0, tail := cols[0], cols[1..];
      var converted := ConvertAll(cols, parse);
      assert converted == [ConvertColumn(c0, parse)] + ConvertAll(tail, parse);
      assert converted[1..] == ConvertAll(tail, parse);
      assert DistinctNames(tail) by {
        forall i, j | 0 <= i < j < |tail| ensures tail[i].name != tail[j].name {
          assert tail[i] == cols[i + 1] && tail[j] == cols[j + 1];
        }
      }
      DropKeepsNumeric(tail, parse);
      var rest := NonNumericNames(tail, parse);
      NonNumericNamesOfColumns(tail, parse);
      assert c0.name !in rest;
      if IsNumeric(c0, parse) {
        assert NonNumericNames(cols, parse) == rest;
      } else {
        assert NonNumericNames(cols, parse) == [c0.name] + rest;
        forall j | 0 <= j < |ConvertAll(tail, parse)| ensures ConvertAll(tail, parse)[j].name != c0.name {
          assert ConvertAll(tail, parse)[j].name == cols[j + 1].name;
        }
        RemoveNamedIgnores(ConvertAll(tail, parse), c0.name, rest);
      }
    }
  }

  /** One step of collecting the names to drop, from the front of `cols[j..]`. */
  lemma NonNumericNamesStep(acc: seq<string>, cols: seq<Column>, j: nat, parse: string -> Option<real>)
    requires j < |cols|
    ensures (acc + (if IsNumeric(cols[j], parse) then [] else [cols[j].name])) + NonNumericNames(cols[j + 1..], parse)
            == acc + NonNumericNames(cols[j..], parse)
  {
    assert cols[j..][1..] == cols[j + 1..];
  }

  /** The columns once the first `j` of them are converted in place. */
  function ConvertedUpTo(cols: seq<Column>, j: nat, parse: string -> Option<real>): (r: seq<Column>)
    requires j <= |cols|
    ensures |r| == |cols|
    ensures j == |cols| ==> r == ConvertAll(cols, parse)
  {
    assert j == |cols| ==> cols[..j] == cols && cols[j..] == [];
    ConvertAll(cols[..j], parse) + cols[j..]
  }

  /** After j steps the first j columns are converted and the rest are untouched. */
  lemma ConvertedUpToCells(cols: seq<Column>, j: nat, parse: string -> Option<real>)
    requires j <= |cols|
    ensures forall i :: 0 <= i < j ==> ConvertedUpTo(cols, j, parse)[i] == ConvertColumn(cols[i], parse)
    ensures forall i :: j <= i < |cols| ==> ConvertedUpTo(cols, j, parse)[i] == cols[i]
  {
  }

  /** Converting column `j` in place moves the boundary by one. */
  lemma ConvertStep(cols: seq<Column>, j: nat, parse: string -> Option<real>)
    requires j < |cols|
    ensures ConvertedUpTo(cols, j, parse)[j := ConvertColumn(cols[j], parse)] == ConvertedUpTo(cols, j + 1, parse)
  {
    ConvertedUpToCells(cols, j, parse);
    ConvertedUpToCells(cols, j + 1, parse);
    var a, b := ConvertedUpTo(cols, j, parse)[j := ConvertColumn(cols[j], parse)], ConvertedUpTo(cols, j + 1, parse);
    assert forall i :: 0 <= i < |cols| ==> a[i] == b[i];
  }

  /** Converted columns keep one cell per row. */
  lemma ConvertedShape(cols: seq<Column>, j: nat, rows: nat, parse: string -> Option<real>)
    requires j <= |cols|
    requires forall i :: 0 <= i < |cols| ==> |cols[i].cells| == rows
    ensures forall i :: 0 <= i < |cols| ==> |ConvertedUpTo(cols, j, parse)[i].cells| == rows
  {
    ConvertedUpToCells(cols, j, parse);
  }

  /** The columns before `j` can all be used through `.str`. */
  predicate AccessibleBelow(cols: seq<Column>, j: nat)
    requires j <= |cols|
  {
    forall i :: 0 <= i < j ==> Accessible(cols, i)
  }

  lemma AccessibleBelowStep(cols: seq<Column>, names: seq<string>, j: nat)
    requires j < |cols| && names == Names(cols) && AccessibleBelow(cols, j)
    requires UniqueName(names, j) && TextLike(cols[j].cells)
    ensures AccessibleBelow(cols, j + 1)
  {
  }

  lemma NotAccessible(cols: seq<Column>, names: seq<string>, j: nat)
    requires j < |cols| && names == Names(cols)
    requires !(UniqueName(names, j) && TextLike(cols[j].cells))
    ensures !Accessible(cols, j)
  {
  }

  /** Every column accessible: no name repeats. */
  lemma AccessibleDistinct(cols: seq<Column>)
    requires AccessibleBelow(cols, |cols|)
    ensures DistinctNames(cols)
  {
    forall a, b | 0 <= a < b < |cols| ensures cols[a].name != cols[b].name {
      assert Accessible(cols, a);
      assert Names(cols)[a] == cols[a].name && Names(cols)[b] == cols[b].name;
    }
  }

  /** The kept columns have one cell per row. */
  lemma {:induction false} KeepNumericShape(cols: seq<Column>, rows: nat, parse: string -> Option<real>)
    requires forall i :: 0 <= i < |cols| ==> |cols[i].cells| == rows
    ensures forall i :: 0 <= i < |KeepNumeric(cols, parse)| ==> |KeepNumeric(cols, parse)[i].cells| == rows
  {
    if cols != [] {
      KeepNumericShape(cols[1..], rows, parse);
      assert forall i :: 0 <= i < |cols[1..]| ==> cols[1..][i] == cols[i + 1];
    }
  }

  /** What the conversion loop has done once `j` columns are behind it: they could
      all be used through `.str` and are converted, and `drop` followed by the names
      still to collect is every name to collect. */
  ghost predicate Converting(original: seq<Column>, j: nat, cols: seq<Column>, drop: seq<string>, parse: string -> Option<real>) {
    && j <= |original|
    && cols == ConvertedUpTo(original, j, parse)
    && AccessibleBelow(original, j)
    && drop + NonNumericNames(original[j..], parse) == NonNumericNames(original, parse)
  }

  /** One more round of the conversion loop: column `j` is still unconverted; if
      `.str` cannot serve it the loop fails there, and otherwise converting it (and
      noting its name when it is not numeric) takes the loop one column further. */
  lemma ConvertingStep(original: seq<Column>, names: seq<string>, j: nat, cols: seq<Column>, drop: seq<string>,
                       parse: string -> Option<real>)
    requires Converting(original, j, cols, drop, parse) && j < |original| && names == Names(original)
    ensures cols[j] == original[j] && names[j] == original[j].name
    ensures !(UniqueName(names, j) && TextLike(original[j].cells)) ==> !Accessible(original, j)
    ensures UniqueName(names, j) && TextLike(original[j].cells) ==>
              Converting(original, j + 1, cols[j := ConvertColumn(original[j], parse)],
                         if IsNumeric(original[j], parse) then drop else drop + [names[j]], parse)
  {
    ConvertedUpToCells(original, j, parse);
    if UniqueName(names, j) && TextLike(original[j].cells) {
      AccessibleBelowStep(original, names, j);
      NonNumericNamesStep(drop, original, j, parse);
      ConvertStep(original, j, parse);
      if IsNumeric(original[j], parse) {
        assert drop + [] == drop;
      }
    } else {
      NotAccessible(original, names, j);
    }
  }

  /** When the loop has gone through every column, all of them are converted and
      `drop` holds every name to collect. */
  lemma ConvertingDone(original: seq<Column>, cols: seq<Column>, drop: seq<string>, parse: string -> Option<real>)
    requires Converting(original, |original|, cols, drop, parse)
    ensures AccessibleBelow(original, |original|)
    ensures cols == ConvertAll(original, parse) && drop == NonNumericNames(original, parse)
  {
    assert original[|original|..] == [];
    assert drop + [] == drop;
  }

  /** The loop of covert_to_numeric, on the column list: the columns are converted
      one by one; on a column `.str` cannot serve, AttributeError is raised there
      (`failedAt`), the columns before it already converted. Otherwise every column
      is converted and the names of the non-numeric ones are collected. */
  method ConvertLoop(original: seq<Column>, parse: string -> Option<real>)
    returns (failedAt: Option<nat>, cols: seq<Column>, columnsToDrop: seq<string>)
    ensures failedAt.Some? ==>
              && failedAt.value < |original|
              && !Accessible(original, failedAt.value)
              && AccessibleBelow(original, failedAt.value)
              && cols == ConvertedUpTo(original, failedAt.value, parse)
    ensures failedAt.None? ==>
              && AccessibleBelow(original, |original|)
              && cols == ConvertAll(original, parse)
              && columnsToDrop == NonNumericNames(original, parse)
  {
    cols := original;
    var names := Names(cols);
    columnsToDrop := [];
    var j := 0;
    assert original[0..] == original;
    while j < |names|
      invariant |names| == |original| && names == Names(original)
      invariant Converting(original, j, cols, columnsToDrop, parse)
    {
      ConvertingStep(original, names, j, cols, columnsToDrop, parse);
      var col := cols[j];
      if !(UniqueName(names, j) && TextLike(col.cells)) {
        return Some(j), cols, columnsToDrop;
      }
      cols := cols[j := ConvertColumn(col, parse)];
      if !IsNumeric(col, parse) {
        columnsToDrop := columnsToDrop + [names[j]];
      }
      j := j + 1;
    }
    ConvertingDone(original, cols, columnsToDrop, parse);
    return None, cols, columnsToDrop;
  }

  /** The conversion loop run on the frame: its columns are replaced by the
      converted ones (all of them, or those before the failing column); the index
      never changes. */
  method ConvertColumns(df: DataFrame, parse: string -> Option<real>)
    returns (failedAt: Option<nat>, columnsToDrop: seq<string>)
    requires df.Valid()
    modifies df
    ensures df.Valid() && df.index == old(df.index) && df.indexName == old(df.indexName)
    ensures failedAt.Some? ==>
              && failedAt.value < |old(df.columns)|
              && !Accessible(old(df.columns), failedAt.value)
              && AccessibleBelow(old(df.columns), failedAt.value)
              && df.columns == ConvertedUpTo(old(df.columns), failedAt.value, parse)
    ensures failedAt.None? ==>
              && AccessibleBelow(old(df.columns), |old(df.columns)|)
              && df.columns == ConvertAll(old(df.columns), parse)
              && columnsToDrop == NonNumericNames(old(df.columns), parse)
  {
    var cols;
    failedAt, cols, columnsToDrop := ConvertLoop(df.columns, parse);
    ConvertedShape(df.columns, if failedAt.Some? then failedAt.value else |df.columns|, |df.index|, parse);
    df.columns := cols;
  }

  /** covert_to_numeric: converts the columns in place (see ConvertColumns), then,
      when `dropNonNumeric` is set, drops the non-numeric ones. */
  method CoerceNumeric(df: DataFrame, parse: string -> Option<real>, dropNonNumeric: bool)
    returns (failedAt: Option<nat>)
    requires df.Valid()
    modifies df
    ensures df.Valid() && df.index == old(df.index) && df.indexName == old(df.indexName)
    ensures failedAt.Some? ==>
              && failedAt.value < |old(df.columns)|
              && !Accessible(old(df.columns), failedAt.value)
              && AccessibleBelow(old(df.columns), failedAt.value)
              && df.columns == ConvertedUpTo(old(df.columns), failedAt.value, parse)
    ensures failedAt.None? ==>
              && AccessibleBelow(old(df.columns), |old(df.columns)|)
              && df.columns == if dropNonNumeric then KeepNumeric(old(df.columns), parse)
                               else ConvertAll(old(df.columns), parse)
  {
    ghost var original := df.columns;
    var columnsToDrop;
    failedAt, columnsToDrop := ConvertColumns(df, parse);
    if failedAt.None? && dropNonNumeric {
      AccessibleDistinct(original);
      DropKeepsNumeric(original, parse);
      KeepNumericShape(original, |df.index|, parse);
      df.columns := RemoveNamed(df.columns, columnsToDrop);
    }
  }

  // The minute window of plotimg (lines 65-98). Times are integers counted from an
  // epoch that is a Monday 00:00: microseconds for instants, minutes for the
  // floored timestamps. Time zones and daylight saving are not modelled.

  const UsPerMinute: int := 60_000_000
  const MinutesPerDay: int := 1440
  const MinutesPerWeek: int := 7 * 1440
  /** Five weeks: 5 * 168 hours * 60 = 50,400 minutes. */
  const WindowMinutes: int := 35 * 1440

  /** dt.floor('min'): the minute an instant falls in (rounding down, also before
      the epoch). */
  function MinuteOf(us: int): (m: int)
    ensures m * UsPerMinute <= us < (m + 1) * UsPerMinute
  {
    us / UsPerMinute
  }

  /** dt.date, as a day count. */
  function DayOf(m: int): (d: int)
    ensures d * MinutesPerDay <= m < (d + 1) * MinutesPerDay
  {
    m / MinutesPerDay
  }

  /** The minute a day starts at plus `t` minutes lies on that day, at hour t / 60
      and minute t % 60. */
  lemma MinuteOfDay(day: int, t: int)
    requires 0 <= t < MinutesPerDay
    ensures DayOf(day * MinutesPerDay + t) == day
    ensures (day * MinutesPerDay + t) % MinutesPerDay == t
    ensures (day * MinutesPerDay + t) % MinutesPerDay / 60 == t / 60
    ensures (day * MinutesPerDay + t) % 60 == t % 60
  {
    var m := day * MinutesPerDay + t;
    DivModBy(m, MinutesPerDay, day, t);
    DivModBy(m, 60, day * 24 + t / 60, t % 60);
  }

  /** The quotient and remainder of m by d are the q and r with m = q * d + r. */
  lemma DivModBy(m: int, d: int, q: int, r: int)
    requires d == 24 || d == 60 || d == MinutesPerDay
    requires m == q * d + r && 0 <= r < d
    ensures m / d == q && m % d == r
  {
  }

  /** end_time before its last line: now + (7 - weekday) days at 00:00, i.e. the
      Monday 00:00 that ends the current week. It lies strictly after now, and the
      Monday 00:00 a week earlier is at or before now. */
  function WindowEnd(now: int): (end: int)
    ensures end % MinutesPerWeek == 0
    ensures now < end * UsPerMinute
    ensures (end - MinutesPerWeek) * UsPerMinute <= now
  {
    var day := DayOf(MinuteOf(now));
    var weekday := day % 7;
    assert day - weekday == 7 * (day / 7);
    (day + 7 - weekday) * MinutesPerDay
  }

  /** The three properties of WindowEnd single it out. */
  lemma WindowEndUnique(now: int, e: int)
    requires e % MinutesPerWeek == 0
    requires (e - MinutesPerWeek) * UsPerMinute <= now < e * UsPerMinute
    ensures e == WindowEnd(now)
  {
    var w := WindowEnd(now);
    var a, b := e / MinutesPerWeek, w / MinutesPerWeek;
    assert e == MinutesPerWeek * a && w == MinutesPerWeek * b;
    assert e - MinutesPerWeek < w by {
      assert (e - MinutesPerWeek) * UsPerMinute < w * UsPerMinute;
    }
    assert w - MinutesPerWeek < e by {
      assert (w - MinutesPerWeek) * UsPerMinute < e * UsPerMinute;
    }
    assert a - 1 < b && b - 1 < a;
  }

  /** start_time: 35 days before the end. The window is every minute from it up to
      end_time, one minute before WindowEnd. */
  function WindowStart(now: int): (start: int)
    ensures start + WindowMinutes == WindowEnd(now)
    ensures start % MinutesPerWeek == 0
  {
    WindowEnd(now) - WindowMinutes
  }

  /** pd.date_range(start_time, end_time, freq='min'): 50,400 consecutive minutes, the
      last one just before WindowEnd; the minute of now is among the last week's. */
  function AllTimestamps(now: int): (ts: seq<int>)
    ensures |ts| == WindowMinutes
    ensures ts[0] == WindowEnd(now) - WindowMinutes && ts[|ts| - 1] == WindowEnd(now) - 1
    ensures forall i :: 0 <= i < |ts| - 1 ==> ts[i + 1] == ts[i] + 1
    ensures ts[|ts| - MinutesPerWeek] <= MinuteOf(now) <= ts[|ts| - 1]
  {
    var start := WindowStart(now);
    seq(WindowMinutes, i requires 0 <= i < WindowMinutes => start + i)
  }

  /** The valid timestamps floored to the minute, in row order; a missing timestamp
      (NaT) never passes the cutoff filter and is dropped. */
  function Floors(times: seq<Option<int>>): (r: seq<int>)
    ensures forall i :: 0 <= i < |times| && times[i].Some? ==> MinuteOf(times[i].value) in r
    ensures forall m :: m in r ==> exists i :: 0 <= i < |times| && times[i].Some? && MinuteOf(times[i].value) == m
  {
    if times == [] then []
    else
      var rest := Floors(times[1..]);
      assert forall i :: 1 <= i < |times| ==> times[i] == times[1..][i - 1];
      (match times[0] case Some(t) => [MinuteOf(t)] case None => []) + rest
  }

  function MaxOf(s: seq<int>): (x: int)
    requires s != []
    ensures x in s && forall y :: y in s ==> y <= x
  {
    if |s| == 1 then s[0]
    else
      var rest := MaxOf(s[1..]);
      assert forall y :: y in s ==> y == s[0] || y in s[1..];
      if s[0] >= rest then s[0] else rest
  }

  function MinOf(s: seq<int>): (x: int)
    requires s != []
    ensures x in s && forall y :: y in s ==> x <= y
  {
    if |s| == 1 then s[0]
    else
      var rest := MinOf(s[1..]);
      assert forall y :: y in s ==> y == s[0] || y in s[1..];
      if s[0] <= rest then s[0] else rest
  }

  /** The minutes at or after `cutoff`, in order. */
  function AtOrAfter(s: seq<int>, cutoff: int): (r: seq<int>)
    ensures forall m :: m in r <==> m in s && m >= cutoff
  {
    if s == [] then []
    else
      assert forall y :: y in s ==> y == s[0] || y in s[1..];
      (if s[0] >= cutoff then [s[0]] else []) + AtOrAfter(s[1..], cutoff)
  }

  /** df[df.timestamp >= most_recent_time - 35 days] (lines 78-80). */
  function Retained(floors: seq<int>): seq<int> {
    if floors == [] then [] else AtOrAfter(floors, MaxOf(floors) - WindowMinutes)
  }

  /** The retained records keep the newest one and span at most 35 days; none is
      left only when there was no valid timestamp. */
  lemma RetainedSpan(floors: seq<int>)
    ensures Retained(floors) == [] <==> floors == []
    ensures floors != [] ==>
              && MaxOf(Retained(floors)) == MaxOf(floors)
              && MaxOf(floors) - WindowMinutes <= MinOf(Retained(floors))
              && forall m :: m in floors && m !in Retained(floors) ==> m < MaxOf(floors) - WindowMinutes
  {
    if floors != [] {
      var r := Retained(floors);
      assert MaxOf(floors) in r;
      assert MaxOf(r) in floors;
    }
  }

  /** The `record` value of window minute m (lines 84-98), each assignment
      overriding the one before: 1 where a retained record floors to m, -1 before
      the oldest or after the newest retained record, -2 after now, 0 for what is
      still unset. */
  function CodeAt(m: int, now: int, retained: seq<int>): (code: int)
    ensures code == -2 || code == -1 || code == 0 || code == 1
    ensures now < m * UsPerMinute ==> code == -2
    ensures m * UsPerMinute <= now && retained != [] && (m < MinOf(retained) || MaxOf(retained) < m) ==> code == -1
    ensures m * UsPerMinute <= now && m in retained ==> code == 1
    ensures (m * UsPerMinute <= now && m !in retained && (retained == [] || MinOf(retained) <= m <= MaxOf(retained)))
            ==> code == 0
  {
    var record: Option<int> := if m in retained then Some(1) else None;
    var record := if retained != [] && m < MinOf(retained) then Some(-1) else record;
    var record := if retained != [] && MaxOf(retained) < m then Some(-1) else record;
    var record := if now < m * UsPerMinute then Some(-2) else record;
    if record.Some? then record.value else 0
  }

  /** Only the current week can show future minutes: every window minute before
      the last week is at or before now. */
  lemma FutureOnlyInLastWeek(now: int, m: int, retained: seq<int>)
    requires WindowStart(now) <= m < WindowEnd(now) - MinutesPerWeek
    ensures CodeAt(m, now, retained) != -2
  {
    assert m * UsPerMinute <= (WindowEnd(now) - MinutesPerWeek) * UsPerMinute;
  }

  /** With no valid timestamp, past minutes are all 0 (missing) and no minute is
      marked as outside the data. */
  lemma NoRecordsAllMissing(now: int, m: int)
    ensures CodeAt(m, now, Retained([])) == if now < m * UsPerMinute then -2 else 0
  {
  }

  // Dates, weeks and the five matrices (lines 101-123).

  /** last_35_days: the dates of the window in ascending order. */
  function Last35Days(now: int): (days: seq<int>)
    ensures |days| == 35
  {
    var first := DayOf(WindowStart(now));
    seq(35, i requires 0 <= i < 35 => first + i)
  }

  /** Last35Days is sorted(df.date.unique())[-35:]: strictly ascending, and its
      elements are exactly the dates of the window's minutes (35 of them, so the
      final slice keeps them all). */
  lemma Last35DaysAreWindowDates(now: int)
    ensures forall i, j :: 0 <= i < j < 35 ==> Last35Days(now)[i] < Last35Days(now)[j]
    ensures forall m :: WindowStart(now) <= m < WindowEnd(now) ==> DayOf(m) in Last35Days(now)
    ensures forall i :: 0 <= i < 35 ==>
              var m := Last35Days(now)[i] * MinutesPerDay;
              WindowStart(now) <= m < WindowEnd(now) && DayOf(m) == Last35Days(now)[i]
  {
    var start, days := WindowStart(now), Last35Days(now);
    var first := DayOf(start);
    assert start == first * MinutesPerDay by {
      assert start == MinutesPerWeek * (start / MinutesPerWeek);
    }
    forall m | start <= m < WindowEnd(now) ensures DayOf(m) in days {
      var d := DayOf(m);
      assert first <= d < first + 35;
      assert days[d - first] == d;
    }
    forall i | 0 <= i < 35
      ensures WindowStart(now) <= days[i] * MinutesPerDay < WindowEnd(now)
      ensures DayOf(days[i] * MinutesPerDay) == days[i]
    {
      MinuteOfDay(days[i], 0);
    }
  }

  /** weeks = [last_35_days[i - 7:i] for i in range(35, 0, -7)]. */
  function Weeks(days: seq<int>): (weeks: seq<seq<int>>)
    requires |days| == 35
    ensures |weeks| == 5 && forall k :: 0 <= k < 5 ==> |weeks[k]| == 7
  {
    seq(5, k requires 0 <= k < 5 => var i := 35 - 7 * k; days[i - 7..i])
  }

  /** The five weeks, oldest last, put back together are the 35 dates: they are
      disjoint slices covering every date once, and weeks[0] ends with the newest. */
  lemma WeeksPartition(days: seq<int>)
    requires |days| == 35
    ensures var w := Weeks(days); w[4] + w[3] + w[2] + w[1] + w[0] == days
    ensures forall k, i :: 0 <= k < 5 && 0 <= i < 7 ==> Weeks(days)[k][i] == days[28 - 7 * k + i]
    ensures Weeks(days)[0][6] == days[34]
  {
    var w := Weeks(days);
    assert w[4] + w[3] + w[2] + w[1] + w[0] == days[0..7] + days[7..14] + days[14..21] + days[21..28] + days[28..35];
    assert days == days[0..7] + days[7..14] + days[14..21] + days[21..28] + days[28..35];
  }

  /** With distinct dates, no date is in two weeks. */
  lemma WeeksDisjoint(days: seq<int>, k1: int, k2: int)
    requires |days| == 35 && forall i, j :: 0 <= i < j < 35 ==> days[i] < days[j]
    requires 0 <= k1 < k2 < 5
    ensures forall d :: d in Weeks(days)[k1] ==> d !in Weeks(days)[k2]
    ensures forall d1, d2 :: d1 in Weeks(days)[k1] && d2 in Weeks(days)[k2] ==> d2 < d1
  {
    WeeksPartition(days);
    var w := Weeks(days);
    forall d1, d2 | d1 in w[k1] && d2 in w[k2] ensures d2 < d1 {
      var i1 :| 0 <= i1 < 7 && w[k1][i1] == d1;
      var i2 :| 0 <= i2 < 7 && w[k2][i2] == d2;
      assert d1 == days[28 - 7 * k1 + i1] && d2 == days[28 - 7 * k2 + i2];
    }
  }

  /** Matrix row of hour `hour` of the `dayIdx`-th day counted from the newest. */
  function RowOf(dayIdx: int, hour: int): int {
    dayIdx * 24 + 23 - hour
  }

  /** Rows of distinct (day, hour) pairs of a week are distinct and within the
      168 rows; the day and hour can be read back from the row. */
  lemma RowOfInverse(dayIdx: int, hour: int)
    requires 0 <= dayIdx < 7 && 0 <= hour < 24
    ensures 0 <= RowOf(dayIdx, hour) < 168
    ensures RowOf(dayIdx, hour) / 24 == dayIdx && RowOf(dayIdx, hour) % 24 == 23 - hour
  {
  }

  /** The minute of the day shown in row r, column c: hour 23 - r % 24. */
  function MinuteInDay(r: int, c: int): int {
    (23 - r % 24) * 60 + c
  }

  /** The window minute the cell (r, c) of the matrix of `week` shows: its days
      newest first, 24 rows each, hour 23 on top. */
  function CellMinute(week: seq<int>, r: int, c: int): int
    requires |week| == 7 && 0 <= r < 168 && 0 <= c < 60
  {
    week[6 - r / 24] * MinutesPerDay + MinuteInDay(r, c)
  }

  /** Higher rows show later minutes: the newest day comes first and, in a day, the
      latest hour; so distinct cells show distinct minutes. */
  lemma CellMinuteDecreasing(week: seq<int>, r1: int, c1: int, r2: int, c2: int)
    requires |week| == 7 && forall i :: 0 <= i < 6 ==> week[i] < week[i + 1]
    requires 0 <= r1 < r2 < 168 && 0 <= c1 < 60 && 0 <= c2 < 60
    ensures CellMinute(week, r2, c2) < CellMinute(week, r1, c1)
  {
    if r1 / 24 < r2 / 24 {
      Ascending(week, 6 - r2 / 24, 6 - r1 / 24);
      assert week[6 - r2 / 24] + 1 <= week[6 - r1 / 24];
    }
  }

  lemma {:induction false} Ascending(week: seq<int>, i: int, j: int)
    requires forall k :: 0 <= k < |week| - 1 ==> week[k] < week[k + 1]
    requires 0 <= i < j < |week|
    ensures week[i] < week[j]
    decreases j - i
  {
    if i + 1 < j {
      Ascending(week, i + 1, j);
    }
  }

  /** The matrix cells of week k show minutes of the window. */
  lemma CellInWindow(now: int, k: int, r: int, c: int)
    requires 0 <= k < 5 && 0 <= r < 168 && 0 <= c < 60
    ensures var w := Weeks(Last35Days(now))[k];
            WindowStart(now) <= CellMinute(w, r, c) < WindowEnd(now)
  {
    var days := Last35Days(now);
    WeeksPartition(days);
    Last35DaysAreWindowDates(now);
    var i := 28 - 7 * k + (6 - r / 24);
    assert Weeks(days)[k][6 - r / 24] == days[i];
  }

  /** Which cells the fill has written once it is at minute `t` of the `dayIdx`-th
      day: all rows of earlier days, and the earlier minutes of this day. */
  predicate Filled(dayIdx: int, t: int, r: int, c: int) {
    r / 24 < dayIdx || (r / 24 == dayIdx && MinuteInDay(r, c) < t)
  }

  /** Writing minute t of day dayIdx adds exactly its cell to the filled ones. */
  lemma FilledStep(dayIdx: int, t: int)
    requires 0 <= dayIdx < 7 && 0 <= t < MinutesPerDay
    ensures 0 <= RowOf(dayIdx, t / 60) < 168
    ensures MinuteInDay(RowOf(dayIdx, t / 60), t % 60) == t && RowOf(dayIdx, t / 60) / 24 == dayIdx
    ensures forall r, c :: 0 <= r < 168 && 0 <= c < 60 ==>
              (Filled(dayIdx, t + 1, r, c) <==> Filled(dayIdx, t, r, c) || (r == RowOf(dayIdx, t / 60) && c == t % 60))
  {
    RowOfInverse(dayIdx, t / 60);
    assert MinuteInDay(RowOf(dayIdx, t / 60), t % 60) == t;
    forall r, c | 0 <= r < 168 && 0 <= c < 60
      ensures Filled(dayIdx, t + 1, r, c) <==> Filled(dayIdx, t, r, c) || (r == RowOf(dayIdx, t / 60) && c == t % 60)
    {
      FilledCell(dayIdx, t, r, c);
    }
  }

  /** FilledStep for one cell. */
  lemma FilledCell(dayIdx: int, t: int, r: int, c: int)
    requires 0 <= dayIdx < 7 && 0 <= t < MinutesPerDay && 0 <= r < 168 && 0 <= c < 60
    ensures Filled(dayIdx, t + 1, r, c) <==> Filled(dayIdx, t, r, c) || (r == RowOf(dayIdx, t / 60) && c == t % 60)
  {
    RowOfInverse(dayIdx, t / 60);
    if r / 24 == dayIdx && MinuteInDay(r, c) == t {
      var h := 23 - r % 24;
      DivModBy(t, 60, h, c);
      assert r == dayIdx * 24 + r % 24;
    }
  }

  /** A finished day is the start of the next; after seven days every cell is written. */
  lemma FilledDayDone(dayIdx: int)
    ensures forall r, c :: 0 <= r < 168 && 0 <= c < 60 ==>
              (Filled(dayIdx, MinutesPerDay, r, c) <==> Filled(dayIdx + 1, 0, r, c))
    ensures dayIdx == 7 ==> forall r, c :: 0 <= r < 168 && 0 <= c < 60 ==> Filled(7, 0, r, c)
  {
  }

  /** The cells of a matrix for `week` hold the codes of the filled cells and 0
      elsewhere. */
  ghost predicate FilledUpTo(matrix: array2<int>, week: seq<int>, now: int, retained: seq<int>, dayIdx: int, t: int)
    requires |week| == 7 && matrix.Length0 == 168 && matrix.Length1 == 60
    reads matrix
  {
    forall r, c :: 0 <= r < 168 && 0 <= c < 60 ==>
      matrix[r, c] == if Filled(dayIdx, t, r, c) then CodeAt(CellMinute(week, r, c), now, retained) else 0
  }

  /** The rows of day_data for the `dayIdx`-th day from the newest: each minute of
      the day in time order, written at row dayIdx * 24 + 23 - hour and column
      minute. */
  method FillDay(matrix: array2<int>, week: seq<int>, dayIdx: int, now: int, retained: seq<int>)
    requires |week| == 7 && 0 <= dayIdx < 7 && matrix.Length0 == 168 && matrix.Length1 == 60
    requires FilledUpTo(matrix, week, now, retained, dayIdx, 0)
    modifies matrix
    ensures FilledUpTo(matrix, week, now, retained, dayIdx + 1, 0)
  {
    var day := week[6 - dayIdx];
    var t := 0;
    while t < MinutesPerDay
      invariant 0 <= t <= MinutesPerDay
      invariant FilledUpTo(matrix, week, now, retained, dayIdx, t)
    {
      var m := day * MinutesPerDay + t;
      MinuteOfDay(day, t);
      FilledStep(dayIdx, t);
      var hour, minute := m % MinutesPerDay / 60, m % 60;
      assert hour == t / 60 && minute == t % 60;
      assert CellMinute(week, RowOf(dayIdx, hour), minute) == m;
      matrix[RowOf(dayIdx, hour), minute] := CodeAt(m, now, retained);
      t := t + 1;
    }
    FilledDayDone(dayIdx);
  }

  /** One records_matrix: zeros, then each day of the week, newest first. */
  method FillWeek(week: seq<int>, now: int, retained: seq<int>) returns (matrix: array2<int>)
    requires |week| == 7
    ensures fresh(matrix) && matrix.Length0 == 168 && matrix.Length1 == 60
    ensures forall r, c :: 0 <= r < 168 && 0 <= c < 60 ==>
              matrix[r, c] == CodeAt(CellMinute(week, r, c), now, retained)
  {
    matrix := new int[168, 60]((r, c) => 0);
    var dayIdx := 0;
    while dayIdx < 7
      invariant 0 <= dayIdx <= 7
      invariant FilledUpTo(matrix, week, now, retained, dayIdx, 0)
    {
      FillDay(matrix, week, dayIdx, now, retained);
      dayIdx := dayIdx + 1;
    }
    FilledDayDone(7);
  }

  /** records_matrices: one matrix per week, in the order of `weeks`. */
  method FillMatrices(weeks: seq<seq<int>>, now: int, retained: seq<int>)
    returns (matrices: seq<array2<int>>)
    requires forall k :: 0 <= k < |weeks| ==> |weeks[k]| == 7
    ensures |matrices| == |weeks|
    ensures forall k :: 0 <= k < |weeks| ==>
              fresh(matrices[k]) && matrices[k].Length0 == 168 && matrices[k].Length1 == 60
    ensures forall k, r, c :: 0 <= k < |weeks| && 0 <= r < 168 && 0 <= c < 60 ==>
              matrices[k][r, c] == CodeAt(CellMinute(weeks[k], r, c), now, retained)
  {
    matrices := [];
    var k := 0;
    while k < |weeks|
      invariant 0 <= k <= |weeks| && |matrices| == k
      invariant forall i :: 0 <= i < k ==>
                  fresh(matrices[i]) && matrices[i].Length0 == 168 && matrices[i].Length1 == 60
      invariant forall i, r, c :: 0 <= i < k && 0 <= r < 168 && 0 <= c < 60 ==>
                  matrices[i][r, c] == CodeAt(CellMinute(weeks[i], r, c), now, retained)
    {
      var matrix := FillWeek(weeks[k], now, retained);
      matrices := matrices + [matrix];
      k := k + 1;
    }
  }

  // plotimg and handler.

  /** The failures the script can meet: `.str` on a column that is not text
      (AttributeError), at the given column position, and `df['timestamp']` on a
      frame without that column (KeyError). */
  datatype Failure = AttributeError(column: nat) | KeyError(name: string)

  /** The timestamps plotimg reads (lines 57-61): the `timestamp` column when the
      frame still has one; otherwise, when the index is named `timestamp`, the index
      (reset_index makes it a column); otherwise none, and `df['timestamp']` raises
      KeyError. */
  function TimestampCells(index: seq<Cell>, indexName: Option<string>, columns: seq<Column>)
    : (cells: Option<seq<Cell>>)
    ensures cells.None? <==> Find(columns, "timestamp").None? && indexName != Some("timestamp")
    ensures Find(columns, "timestamp").Some? ==> cells == Some(columns[Find(columns, "timestamp").value].cells)
    ensures Find(columns, "timestamp").None? && indexName == Some("timestamp") ==> cells == Some(index)
  {
    match Find(columns, "timestamp")
    case Some(j) => Some(columns[j].cells)
    case None => if indexName == Some("timestamp") then Some(index) else None
  }

  /** pd.to_datetime(..., errors='coerce') on every value; `toTime` stands for the
      library's conversion to an instant in microseconds (None for NaT). */
  function Times(cells: seq<Cell>, toTime: Cell -> Option<int>): (r: seq<Option<int>>)
    ensures |r| == |cells| && forall i :: 0 <= i < |cells| ==> r[i] == toTime(cells[i])
  {
    seq(|cells|, i requires 0 <= i < |cells| => toTime(cells[i]))
  }

  /** The `timestamp` column after lines 61-63: each instant, NaT as missing. */
  function TimeCells(times: seq<Option<int>>): (r: seq<Cell>)
    ensures |r| == |times|
  {
    seq(|times|, i requires 0 <= i < |times| => if times[i].Some? then Time(times[i].value) else Missing)
  }

  /** The `timestamp` column after line 67: each instant floored to the start of its
      minute, NaT as missing. */
  function FlooredCells(times: seq<Option<int>>): (r: seq<Cell>)
    ensures |r| == |times|
  {
    seq(|times|, i requires 0 <= i < |times| =>
      if times[i].Some? then Time(MinuteOf(times[i].value) * UsPerMinute) else Missing)
  }

  /** The caller's columns once plotimg has written the timestamps back (lines
      61-67): when the coerced frame kept a `timestamp` column, that column now holds
      the floored instants; otherwise plotimg worked on a reset copy (or failed) and
      the columns stay. */
  function Stamped(cols: seq<Column>, toTime: Cell -> Option<int>): (r: seq<Column>)
    ensures Find(cols, "timestamp").None? ==> r == cols
    ensures Find(cols, "timestamp").Some? ==>
              && |r| == |cols|
              && r[Find(cols, "timestamp").value].cells == FlooredCells(Times(cols[Find(cols, "timestamp").value].cells, toTime))
              && forall j :: 0 <= j < |cols| && j != Find(cols, "timestamp").value ==> r[j] == cols[j]
  {
    match Find(cols, "timestamp")
    case None => cols
    case Some(j) =>
      FindFirst(cols, "timestamp");
      Assigned(cols, "timestamp", FlooredCells(Times(cols[j].cells, toTime)))
  }

  /** The retained record minutes of a frame's timestamps. */
  function RetainedOf(cells: seq<Cell>, toTime: Cell -> Option<int>): seq<int> {
    Retained(Floors(Times(cells, toTime)))
  }

  /** plotimg up to the matrices: coerces the caller's frame in place (dropping
      non-numeric columns), reads the timestamps, writes the floored timestamps back
      into the caller's frame when they came from its own column, filters them, and
      fills one 168 x 60 matrix per week from the codes of the window's minutes.
      Drawing is not modelled. */
  method PlotImg(df: DataFrame, parse: string -> Option<real>, toTime: Cell -> Option<int>, now: int)
    returns (r: Result<seq<array2<int>>, Failure>)
    requires df.Valid()
    modifies df
    ensures df.Valid() && df.index == old(df.index) && df.indexName == old(df.indexName)
    ensures r.Err? && r.error.AttributeError? <==> !AccessibleBelow(old(df.columns), |old(df.columns)|)
    ensures r.Err? && r.error.AttributeError? ==>
              && r.error.column < |old(df.columns)| && !Accessible(old(df.columns), r.error.column)
              && df.columns == ConvertedUpTo(old(df.columns), r.error.column, parse)
    ensures AccessibleBelow(old(df.columns), |old(df.columns)|) ==>
              var kept := KeepNumeric(old(df.columns), parse);
              && df.columns == Stamped(kept, toTime)
              && (r.Err? <==> TimestampCells(old(df.index), old(df.indexName), kept).None?)
              && (r.Err? ==> r.error == KeyError("timestamp"))
    ensures r.Ok? ==>
              var cells := TimestampCells(old(df.index), old(df.indexName), KeepNumeric(old(df.columns), parse));
              && cells.Some?
              && |r.value| == 5
              && (forall k :: 0 <= k < 5 ==> fresh(r.value[k]) && r.value[k].Length0 == 168 && r.value[k].Length1 == 60)
              && forall k, row, c :: 0 <= k < 5 && 0 <= row < 168 && 0 <= c < 60 ==>
                   r.value[k][row, c]
                   == CodeAt(CellMinute(Weeks(Last35Days(now))[k], row, c), now, RetainedOf(cells.value, toTime))
  {
    var failedAt := CoerceNumeric(df, parse, true);
    if failedAt.Some? {
      return Err(AttributeError(failedAt.value));
    }
    var cells := TimestampCells(df.index, df.indexName, df.columns);
    if cells.None? {
      return Err(KeyError("timestamp"));
    }
    var times := Times(cells.value, toTime);
    var t := Find(df.columns, "timestamp");
    if t.Some? {
      ghost var kept := df.columns;
      df.Assign("timestamp", TimeCells(times));
      df.Assign("timestamp", FlooredCells(times));
      AssignedAgain(kept, "timestamp", TimeCells(times), FlooredCells(times));
    }
    var retained := Retained(Floors(times));
    var weeks := Weeks(Last35Days(now));
    var matrices := FillMatrices(weeks, now, retained);
    return Ok(matrices);
  }

  /** The dummy frame's only column holds numbers, so `.str` cannot serve on it. */
  lemma DummyFails()
    ensures !Accessible([Column("value", [Num(1.0), Num(2.0)])], 0)
  {
    var cells := [Num(1.0), Num(2.0)];
    assert !cells[0].Missing?;
  }

  const OutputType: string := "png"

  /** Where plotimg saves the image and returnimg reads it. */
  const ImagePath: string := "/tmp/img." + OutputType

  /** handler: the first dataset, or with none a dummy frame (index `timestamp` =
      [0, 1], column `value` = [1, 2]), is plotted; the renderer's bytes `image` are saved at
      ImagePath, read back and returned base64 encoded. The dummy frame's column holds
      numbers, so `.str` fails on it: with no dataset the handler raises. */
  method Handler(dfs: seq<DataFrame>, parse: string -> Option<real>, toTime: Cell -> Option<int>,
                 now: int, image: seq<byte>, files: ImageResponse.Files)
    returns (saved: ImageResponse.Files, response: Result<ImageResponse.Response, Failure>)
    requires |dfs| > 0 ==> dfs[0].Valid()
    modifies if |dfs| > 0 then {dfs[0]} else {}
    ensures |dfs| == 0 ==> response == Err(AttributeError(0)) && saved == files
    ensures |dfs| > 0 ==>
              (response.Ok? <==>
                 && AccessibleBelow(old(dfs[0].columns), |old(dfs[0].columns)|)
                 && TimestampCells(old(dfs[0].index), old(dfs[0].indexName),
                                   KeepNumeric(old(dfs[0].columns), parse)).Some?)
    ensures response.Err? ==> saved == files
    ensures response.Ok? ==>
              && saved == files[ImagePath := image]
              && response.value.statusCode == 200 && response.value.isBase64Encoded
              && response.value.headers == map["Content-Type" := "image/" + OutputType]
              && Base64.Decode(response.value.body) == Some(image)
  {
    var df: DataFrame;
    if |dfs| > 0 {
      df := dfs[0];
    } else {
      df := new DataFrame([Num(0.0), Num(1.0)], Some("timestamp"), [Column("value", [Num(1.0), Num(2.0)])]);
    }
    ghost var columns := df.columns;
    var plotted := PlotImg(df, parse, toTime, now);
    if |dfs| == 0 {
      DummyFails();
      assert !AccessibleBelow(columns, |columns|);
    }
    if plotted.Err? {
      return files, Err(plotted.error);
    }
    saved := files[ImagePath := image];
    var returned := ImageResponse.ReturnImg(saved, ImagePath, "image/" + OutputType);
    response := Ok(returned.value);
  }
}
