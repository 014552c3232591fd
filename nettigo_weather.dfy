/** 15-nettigo-weather-past-2days/main.py: a Nettigo air-quality station logs rows
    whose readings sit in up to 14 pairs of columns `sensordatavalues_<i>_value_type`
    and `sensordatavalues_<i>_value`. `preprocess` keeps the last two days and, for
    the BME280 temperature, the BME280 humidity and the SDS P2.5 particle count,
    gathers every reading of that type into one frame sorted by time; `plotimg`
    shades the nights, clamped to the span of the temperature data. Times are
    integer microseconds; sunset and sunrise are inputs. */
module NettigoWeather {
  import opened Common
  import opened Frames
  import ImageResponse
  import Base64

  const UsPerDay: int := 86_400_000_000

  /** The sensor types plotted, in the order `preprocess` visits them. */
  const SensorTypes: seq<string> := ["BME280_temperature", "BME280_humidity", "SDS_P2"]

  /** range(14): the column pairs looked at. */
  const Slots: nat := 14

  /** A frame as the script sees it: row timestamps and named columns. */
  datatype Frame = Frame(index: seq<int>, columns: seq<Column>)

  predicate WellFormed(f: Frame) {
    forall j :: 0 <= j < |f.columns| ==> |f.columns[j].cells| == |f.index|
  }

  // Column names

  /** str(n): the decimal digits of n, most significant first. */
  function Decimal(n: nat): string {
    var digit := ['0' + (n % 10) as char];
    if n < 10 then digit else Decimal(n / 10) + digit
  }

  function TypeColumn(i: nat): string {
    "sensordatavalues_" + Decimal(i) + "_value_type"
  }

  function ValueColumn(i: nat): string {
    "sensordatavalues_" + Decimal(i) + "_value"
  }

  // df[df.index > cutoff_time]

  /** The positions of the rows kept by the cut-off, in their original order. */
  function Kept(index: seq<int>, cutoff: int): (rows: seq<nat>)
    ensures forall k :: 0 <= k < |rows| ==> rows[k] < |index| && index[rows[k]] > cutoff
    ensures forall k, l :: 0 <= k < l < |rows| ==> rows[k] < rows[l]
  {
    if index == [] then []
    else
      var n := |index| - 1;
      Kept(index[..n], cutoff) + (if index[n] > cutoff then [n] else [])
  }

  /** Every row after the cut-off is kept. */
  lemma {:induction false} KeptAll(index: seq<int>, cutoff: int, r: nat)
    requires r < |index| && index[r] > cutoff
    ensures r in Kept(index, cutoff)
    decreases |index|
  {
    var n := |index| - 1;
    if r < n {
      assert index[..n][r] == index[r];
      KeptAll(index[..n], cutoff, r);
    }
  }

  /** The rows at the given positions, every column alike. */
  function Rows(f: Frame, rows: seq<nat>): (r: Frame)
    requires WellFormed(f) && forall k :: 0 <= k < |rows| ==> rows[k] < |f.index|
    ensures WellFormed(r) && |r.index| == |rows| && |r.columns| == |f.columns|
    ensures forall j :: 0 <= j < |f.columns| ==> r.columns[j].name == f.columns[j].name
  {
    Frame(seq(|rows|, k requires 0 <= k < |rows| => f.index[rows[k]]),
          seq(|f.columns|, j requires 0 <= j < |f.columns| =>
            Column(f.columns[j].name, seq(|rows|, k requires 0 <= k < |rows| => f.columns[j].cells[rows[k]]))))
  }

  /** The frame restricted to rows strictly after `cutoff`. */
  function Recent(f: Frame, cutoff: int): (r: Frame)
    requires WellFormed(f)
    ensures WellFormed(r)
  {
    Rows(f, Kept(f.index, cutoff))
  }

  /** Filtering rows keeps every column, under its name and at its place. */
  lemma {:induction false} FindSameNames(a: seq<Column>, b: seq<Column>, name: string)
    requires |a| == |b| && forall j :: 0 <= j < |a| ==> a[j].name == b[j].name
    ensures Find(a, name) == Find(b, name)
  {
    if a != [] {
      FindSameNames(a[1..], b[1..], name);
    }
  }

  // The readings of one sensor type

  /** One reading: the row's timestamp and the cell of the value column. */
  datatype Reading = Reading(time: int, value: Cell)

  function TimeOf(r: Reading): int {
    r.time
  }

  /** df.loc[df[type_col] == sensor_type, [value_col]]: the readings of the rows
      whose type cell is the sensor type, in row order. */
  function Picked(index: seq<int>, types: seq<Cell>, values: seq<Cell>, sensor: string): seq<Reading>
    requires |types| == |index| && |values| == |index|
  {
    if index == [] then []
    else
      var n := |index| - 1;
      Picked(index[..n], types[..n], values[..n], sensor)
      + (if types[n] == Text(sensor) then [Reading(index[n], values[n])] else [])
  }

  /** The readings picked are exactly those of the rows typed with the sensor. */
  lemma {:induction false} PickedMembers(index: seq<int>, types: seq<Cell>, values: seq<Cell>, sensor: string, rd: Reading)
    requires |types| == |index| && |values| == |index|
    ensures rd in Picked(index, types, values, sensor) <==>
              exists r :: 0 <= r < |index| && types[r] == Text(sensor) && rd == Reading(index[r], values[r])
    decreases |index|
  {
    if index != [] {
      var n := |index| - 1;
      PickedMembers(index[..n], types[..n], values[..n], sensor, rd);
      if exists r :: 0 <= r < |index| && types[r] == Text(sensor) && rd == Reading(index[r], values[r]) {
        var r :| 0 <= r < |index| && types[r] == Text(sensor) && rd == Reading(index[r], values[r]);
        if r < n {
          assert index[..n][r] == index[r] && types[..n][r] == types[r] && values[..n][r] == values[r];
        }
      }
    }
  }

  /** What the inner loop has gathered: whether a type column was met at all, and
      the readings in the order they were concatenated. */
  datatype Gathered = Gathered(found: bool, readings: seq<Reading>)

  /** df[value_col] on a missing column raises KeyError; data.index[-1] on a frame
      without rows raises IndexError, and so does dfs[0] on an empty list. */
  datatype Failure = KeyError(column: string) | IndexError(sensor: string) | NoDataset

  /** The columns of pair i: no type column, a type column without its value
      column, or both, at these positions. */
  datatype SlotColumns = Absent | Broken | Complete(types: nat, values: nat)

  function SlotOf(f: Frame, i: nat): (s: SlotColumns)
    ensures s.Complete? ==> s.types < |f.columns| && s.values < |f.columns|
  {
    match Find(f.columns, TypeColumn(i))
    case None => Absent
    case Some(t) =>
      match Find(f.columns, ValueColumn(i))
      case None => Broken
      case Some(v) => Complete(t, v)
  }

  /** The columns of the 14 pairs. */
  function Pairs(f: Frame): (p: seq<SlotColumns>)
    ensures |p| == Slots && Fits(f, p)
    ensures forall i :: 0 <= i < Slots ==> p[i] == SlotOf(f, i)
  {
    seq(Slots, i requires 0 <= i => SlotOf(f, i))
  }

  /** Every complete pair names columns of the frame. */
  predicate Fits(f: Frame, pairs: seq<SlotColumns>) {
    forall i :: 0 <= i < |pairs| && pairs[i].Complete? ==> pairs[i].types < |f.columns| && pairs[i].values < |f.columns|
  }

  /** The inner loop over i in range(n), as a value: a pair without its type column
      is skipped; one with its type column but not its value column raises. */
  function Collected(f: Frame, pairs: seq<SlotColumns>, sensor: string, n: nat): Result<Gathered, Failure>
    requires WellFormed(f) && Fits(f, pairs) && n <= |pairs|
  {
    if n == 0 then Ok(Gathered(false, []))
    else
      var prior := Collected(f, pairs, sensor, n - 1);
      var slot := pairs[n - 1];
      if prior.Err? || slot.Absent? then prior
      else if slot.Broken? then Err(KeyError(ValueColumn(n - 1)))
      else Ok(Gathered(true, prior.value.readings + Picked(f.index, f.columns[slot.types].cells, f.columns[slot.values].cells, sensor)))
  }

  /** The row `r` of pair `i` is the reading `rd` of the sensor. */
  predicate Source(f: Frame, pairs: seq<SlotColumns>, sensor: string, i: nat, r: nat, rd: Reading)
    requires WellFormed(f) && Fits(f, pairs)
  {
    && i < |pairs| && pairs[i].Complete? && r < |f.index|
    && f.columns[pairs[i].types].cells[r] == Text(sensor)
    && rd == Reading(f.index[r], f.columns[pairs[i].values].cells[r])
  }

  /** Some row of some pair below n is the reading `rd` of the sensor. */
  ghost predicate Sourced(f: Frame, pairs: seq<SlotColumns>, sensor: string, n: nat, rd: Reading)
    requires WellFormed(f) && Fits(f, pairs)
  {
    exists i: nat, r: nat :: i < n && Source(f, pairs, sensor, i, r, rd)
  }

  /** The gathering fails exactly when some pair is broken, with the value column of
      the first broken pair, whatever the sensor. */
  lemma {:induction false} CollectedFails(f: Frame, pairs: seq<SlotColumns>, sensor: string, n: nat)
    requires WellFormed(f) && Fits(f, pairs) && n <= |pairs|
    ensures Collected(f, pairs, sensor, n).Err? <==> exists i: nat :: i < n && pairs[i].Broken?
    ensures Collected(f, pairs, sensor, n).Err? ==>
              exists i: nat :: i < n && pairs[i].Broken? && Collected(f, pairs, sensor, n).error == KeyError(ValueColumn(i))
                               && forall j: nat :: j < i ==> !pairs[j].Broken?
  {
    if n > 0 {
      CollectedFails(f, pairs, sensor, n - 1);
    }
  }

  /** A successful gathering holds exactly the readings of the sensor in the
      complete pairs, and holds none when no type column was met. */
  lemma {:induction false} CollectedHolds(f: Frame, pairs: seq<SlotColumns>, sensor: string, n: nat, rd: Reading)
    requires WellFormed(f) && Fits(f, pairs) && n <= |pairs| && Collected(f, pairs, sensor, n).Ok?
    ensures !Collected(f, pairs, sensor, n).value.found ==> Collected(f, pairs, sensor, n).value.readings == []
    ensures rd in Collected(f, pairs, sensor, n).value.readings <==> Sourced(f, pairs, sensor, n, rd)
  {
    if n > 0 {
      CollectedHolds(f, pairs, sensor, n - 1, rd);
      var slot := pairs[n - 1];
      if slot.Absent? {
        if Sourced(f, pairs, sensor, n, rd) {
          var i: nat, r: nat :| i < n && Source(f, pairs, sensor, i, r, rd);
          assert i < n - 1;
        }
      } else if slot.Complete? {
        var t, v := slot.types, slot.values;
        PickedMembers(f.index, f.columns[t].cells, f.columns[v].cells, sensor, rd);
        if exists r :: 0 <= r < |f.index| && f.columns[t].cells[r] == Text(sensor)
                       && rd == Reading(f.index[r], f.columns[v].cells[r]) {
          var r :| 0 <= r < |f.index| && f.columns[t].cells[r] == Text(sensor)
                   && rd == Reading(f.index[r], f.columns[v].cells[r]);
          assert Source(f, pairs, sensor, n - 1, r, rd);
        }
        if Sourced(f, pairs, sensor, n, rd) {
          var i: nat, r: nat :| i < n && Source(f, pairs, sensor, i, r, rd);
          if i == n - 1 {
            assert 0 <= r < |f.index| && f.columns[t].cells[r] == Text(sensor);
          } else {
            assert Sourced(f, pairs, sensor, n - 1, rd);
          }
        }
      }
    }
  }

  /** Once a pair has failed, the later pairs are never reached. */
  lemma {:induction false} CollectedErrStays(f: Frame, pairs: seq<SlotColumns>, sensor: string, n: nat, m: nat)
    requires WellFormed(f) && Fits(f, pairs) && n <= m <= |pairs| && Collected(f, pairs, sensor, n).Err?
    ensures Collected(f, pairs, sensor, m) == Collected(f, pairs, sensor, n)
    decreases m - n
  {
    if n < m {
      CollectedErrStays(f, pairs, sensor, n, m - 1);
    }
  }

  /** One more pair after a successful gathering: an absent pair changes nothing,
      a complete one appends its readings. */
  lemma CollectedStep(f: Frame, pairs: seq<SlotColumns>, sensor: string, i: nat)
    requires WellFormed(f) && Fits(f, pairs) && i < |pairs| && Collected(f, pairs, sensor, i).Ok?
    ensures pairs[i].Absent? ==> Collected(f, pairs, sensor, i + 1) == Collected(f, pairs, sensor, i)
    ensures pairs[i].Broken? ==> Collected(f, pairs, sensor, i + 1) == Err(KeyError(ValueColumn(i)))
    ensures pairs[i].Complete? ==>
              Collected(f, pairs, sensor, i + 1)
              == Ok(Gathered(true, Collected(f, pairs, sensor, i).value.readings
                                   + Picked(f.index, f.columns[pairs[i].types].cells, f.columns[pairs[i].values].cells, sensor)))
  {
  }

  /** The inner loop of `preprocess` for one sensor type: the readings of every
      complete pair, concatenated in pair order. */
  method CollectSensor(f: Frame, sensor: string) returns (r: Result<Gathered, Failure>)
    requires WellFormed(f)
    ensures r == Collected(f, Pairs(f), sensor, Slots)
  {
    ghost var pairs := Pairs(f);
    var found, readings := false, [];
    var i := 0;
    while i < Slots
      invariant 0 <= i <= Slots
      invariant Collected(f, pairs, sensor, i) == Ok(Gathered(found, readings))
      invariant !found ==> readings == []
    {
      CollectedStep(f, pairs, sensor, i);
      assert pairs[i] == SlotOf(f, i);
      var t := Find(f.columns, TypeColumn(i));
      if t.Some? {
        var v := Find(f.columns, ValueColumn(i));
        if v.None? {
          assert pairs[i] == Broken;
          CollectedErrStays(f, pairs, sensor, i + 1, Slots);
          return Err(KeyError(ValueColumn(i)));
        }
        assert pairs[i] == Complete(t.value, v.value);
        var temp := Picked(f.index, f.columns[t.value].cells, f.columns[v.value].cells, sensor);
        if readings != [] {
          readings := readings + temp;
        } else {
          assert [] + temp == temp;
          readings := temp;
        }
        found := true;
      } else {
        assert pairs[i] == Absent;
      }
      i := i + 1;
    }
    return Ok(Gathered(found, readings));
  }

  /** processed_df[sensor_type] after sort_index: a frame with no column when no
      type column was met, else one column named after the sensor type holding the
      gathered readings ordered by time. */
  function AsFrame(sensor: string, g: Gathered): Frame {
    if !g.found then Frame([], [])
    else
      var s := SortByKey(g.readings, TimeOf);
      Frame(seq(|s|, k requires 0 <= k < |s| => s[k].time),
            [Column(sensor, seq(|s|, k requires 0 <= k < |s| => s[k].value))])
  }

  /** The rows of a single-column frame, as readings. */
  function ReadingsOf(f: Frame): seq<Reading>
    requires |f.columns| == 1 && |f.columns[0].cells| == |f.index|
  {
    seq(|f.index|, k requires 0 <= k < |f.index| => Reading(f.index[k], f.columns[0].cells[k]))
  }

  /** The result is a well-formed frame with a single column named after the
      sensor, its rows are ordered by time, and they are the gathered readings,
      each as often as it was gathered. */
  lemma AsFrameShape(sensor: string, g: Gathered)
    requires g.found
    ensures var r := AsFrame(sensor, g);
            && WellFormed(r) && |r.columns| == 1 && r.columns[0].name == sensor
            && (forall k, l :: 0 <= k < l < |r.index| ==> r.index[k] <= r.index[l])
            && multiset(ReadingsOf(r)) == multiset(g.readings)
  {
    var s := SortByKey(g.readings, TimeOf);
    var r := AsFrame(sensor, g);
    assert ReadingsOf(r) == s;
  }

  /** The outer loop of `preprocess` over the first k sensor types, as a value. */
  function ProcessedUpTo(recent: Frame, pairs: seq<SlotColumns>, k: nat): Result<map<string, Frame>, Failure>
    requires WellFormed(recent) && Fits(recent, pairs) && |pairs| == Slots && k <= |SensorTypes|
  {
    if k == 0 then Ok(map[])
    else
      var prior := ProcessedUpTo(recent, pairs, k - 1);
      var g := Collected(recent, pairs, SensorTypes[k - 1], Slots);
      if prior.Err? then prior
      else if g.Err? then Err(g.error)
      else Ok(prior.value[SensorTypes[k - 1] := AsFrame(SensorTypes[k - 1], g.value)])
  }

  /** What `preprocess` answers for frame `f` at time `now`. */
  function Preprocessed(f: Frame, now: int): Result<map<string, Frame>, Failure>
    requires WellFormed(f)
  {
    var recent := Recent(f, Cutoff(now));
    ProcessedUpTo(recent, Pairs(recent), |SensorTypes|)
  }

  function Cutoff(now: int): int {
    now - 2 * UsPerDay
  }

  /** preprocess(df), with `now` for the clock. */
  method Preprocess(f: Frame, now: int) returns (r: Result<map<string, Frame>, Failure>)
    requires WellFormed(f)
    ensures r == Preprocessed(f, now)
  {
    var recent := Recent(f, Cutoff(now));
    ghost var pairs := Pairs(recent);
    var processed: map<string, Frame> := map[];
    var k := 0;
    while k < |SensorTypes|
      invariant 0 <= k <= |SensorTypes|
      invariant ProcessedUpTo(recent, pairs, k) == Ok(processed)
    {
      var sensor := SensorTypes[k];
      var g := CollectSensor(recent, sensor);
      if g.Err? {
        ProcessedErrStays(recent, pairs, k + 1, |SensorTypes|);
        return Err(g.error);
      }
      processed := processed[sensor := AsFrame(sensor, g.value)];
      k := k + 1;
    }
    return Ok(processed);
  }

  lemma {:induction false} ProcessedErrStays(recent: Frame, pairs: seq<SlotColumns>, k: nat, m: nat)
    requires WellFormed(recent) && Fits(recent, pairs) && |pairs| == Slots
    requires k <= m <= |SensorTypes| && ProcessedUpTo(recent, pairs, k).Err?
    ensures ProcessedUpTo(recent, pairs, m) == ProcessedUpTo(recent, pairs, k)
    decreases m - k
  {
    if k < m {
      ProcessedErrStays(recent, pairs, k, m - 1);
    }
  }

  /** Whether a gathering fails, and how, does not depend on the sensor type. */
  lemma {:induction false} CollectedErrSame(f: Frame, pairs: seq<SlotColumns>, s1: string, s2: string, n: nat)
    requires WellFormed(f) && Fits(f, pairs) && n <= |pairs|
    ensures Collected(f, pairs, s1, n).Err? <==> Collected(f, pairs, s2, n).Err?
    ensures Collected(f, pairs, s1, n).Err? ==> Collected(f, pairs, s1, n).error == Collected(f, pairs, s2, n).error
  {
    if n > 0 {
      CollectedErrSame(f, pairs, s1, s2, n - 1);
    }
  }

  /** The outer loop, unfolded over the three sensor types. */
  lemma ProcessedUnfolded(recent: Frame, pairs: seq<SlotColumns>)
    requires WellFormed(recent) && Fits(recent, pairs) && |pairs| == Slots
    ensures var g0, g1, g2 := Collected(recent, pairs, SensorTypes[0], Slots),
                              Collected(recent, pairs, SensorTypes[1], Slots),
                              Collected(recent, pairs, SensorTypes[2], Slots);
            ProcessedUpTo(recent, pairs, |SensorTypes|)
              == if g0.Err? then Err(g0.error)
                 else if g1.Err? then Err(g1.error)
                 else if g2.Err? then Err(g2.error)
                 else Ok(map[SensorTypes[0] := AsFrame(SensorTypes[0], g0.value),
                             SensorTypes[1] := AsFrame(SensorTypes[1], g1.value),
                             SensorTypes[2] := AsFrame(SensorTypes[2], g2.value)])
  {
    var p1 := ProcessedUpTo(recent, pairs, 1);
    var p2 := ProcessedUpTo(recent, pairs, 2);
    assert ProcessedUpTo(recent, pairs, 0) == Ok(map[]);
  }

  /** The outer loop fails exactly as gathering the first sensor type fails;
      otherwise it maps each of the three sensor types to the frame of its gathered
      readings. */
  lemma ProcessedAll(recent: Frame, pairs: seq<SlotColumns>)
    requires WellFormed(recent) && Fits(recent, pairs) && |pairs| == Slots
    ensures var r := ProcessedUpTo(recent, pairs, |SensorTypes|);
            && (r.Err? <==> Collected(recent, pairs, SensorTypes[0], Slots).Err?)
            && (r.Err? ==> r.error == Collected(recent, pairs, SensorTypes[0], Slots).error)
    ensures var r := ProcessedUpTo(recent, pairs, |SensorTypes|);
            r.Ok? ==> forall s :: s in SensorTypes ==>
                        && Collected(recent, pairs, s, Slots).Ok?
                        && s in r.value && r.value[s] == AsFrame(s, Collected(recent, pairs, s, Slots).value)
  {
    ProcessedUnfolded(recent, pairs);
    CollectedErrSame(recent, pairs, SensorTypes[0], SensorTypes[1], Slots);
    CollectedErrSame(recent, pairs, SensorTypes[0], SensorTypes[2], Slots);
  }

  /** The cut-off keeps every column, so each pair is broken, absent or complete
      after it exactly as before. */
  lemma PairsKept(f: Frame, cutoff: int)
    requires WellFormed(f)
    ensures Pairs(Recent(f, cutoff)) == Pairs(f)
  {
    forall i | 0 <= i < Slots ensures SlotOf(Recent(f, cutoff), i) == SlotOf(f, i) {
      FindSameNames(Recent(f, cutoff).columns, f.columns, TypeColumn(i));
      FindSameNames(Recent(f, cutoff).columns, f.columns, ValueColumn(i));
    }
  }

  /** `preprocess` fails exactly when a pair has its type column but not its value
      column, and names the value column of the first such pair. */
  lemma PreprocessFails(f: Frame, now: int)
    requires WellFormed(f)
    ensures Preprocessed(f, now).Err? <==> exists i: nat :: i < Slots && SlotOf(f, i).Broken?
    ensures Preprocessed(f, now).Err? ==>
              exists i: nat :: i < Slots && SlotOf(f, i).Broken? && Preprocessed(f, now).error == KeyError(ValueColumn(i))
                               && forall j: nat :: j < i ==> !SlotOf(f, j).Broken?
  {
    var recent := Recent(f, Cutoff(now));
    PairsKept(f, Cutoff(now));
    ProcessedAll(recent, Pairs(f));
    CollectedFails(recent, Pairs(f), SensorTypes[0], Slots);
  }

  /** The rows picked out of a frame, position by position. */
  lemma RowsAt(f: Frame, rows: seq<nat>, j: nat, k: nat)
    requires WellFormed(f) && forall k :: 0 <= k < |rows| ==> rows[k] < |f.index|
    requires j < |f.columns| && k < |rows|
    ensures Rows(f, rows).index[k] == f.index[rows[k]]
    ensures Rows(f, rows).columns[j].cells[k] == f.columns[j].cells[rows[k]]
  {
  }

  /** Row k of the cut frame is the k-th kept row of the original. */
  lemma RecentSources(f: Frame, cutoff: int, sensor: string, rd: Reading)
    requires WellFormed(f)
    ensures Sourced(Recent(f, cutoff), Pairs(f), sensor, Slots, rd) <==>
              exists i: nat, row: nat :: i < Slots && Source(f, Pairs(f), sensor, i, row, rd) && f.index[row] > cutoff
  {
    var rows := Kept(f.index, cutoff);
    var recent := Recent(f, cutoff);
    var pairs := Pairs(f);
    assert Fits(recent, pairs);
    if Sourced(recent, pairs, sensor, Slots, rd) {
      var i: nat, k: nat :| i < Slots && Source(recent, pairs, sensor, i, k, rd);
      RowsAt(f, rows, pairs[i].types, k);
      RowsAt(f, rows, pairs[i].values, k);
      assert Source(f, pairs, sensor, i, rows[k], rd);
    }
    if exists i: nat, row: nat :: i < Slots && Source(f, pairs, sensor, i, row, rd) && f.index[row] > cutoff {
      var i: nat, row: nat :| i < Slots && Source(f, pairs, sensor, i, row, rd) && f.index[row] > cutoff;
      KeptAll(f.index, cutoff, row);
      var k :| 0 <= k < |rows| && rows[k] == row;
      RowsAt(f, rows, pairs[i].types, k);
      RowsAt(f, rows, pairs[i].values, k);
      assert Source(recent, pairs, sensor, i, k, rd);
    }
  }

  /** On success, a sensor's frame holds a reading exactly when some row after the
      cut-off holds it in a complete pair typed with that sensor; a frame with no
      column holds no row, and then there is no such reading. */
  lemma PreprocessHolds(f: Frame, now: int, sensor: string, rd: Reading)
    requires WellFormed(f) && sensor in SensorTypes && Preprocessed(f, now).Ok?
    ensures sensor in Preprocessed(f, now).value
    ensures var r := Preprocessed(f, now).value[sensor];
            && (r.columns != [] ==> |r.columns| == 1 && |r.columns[0].cells| == |r.index| &&
                                    (rd in ReadingsOf(r) <==>
                                       exists i: nat, row: nat :: i < Slots && Source(f, Pairs(f), sensor, i, row, rd) && f.index[row] > Cutoff(now)))
            && (r.columns == [] ==> r.index == [] &&
                                    !exists i: nat, row: nat :: i < Slots && Source(f, Pairs(f), sensor, i, row, rd) && f.index[row] > Cutoff(now))
  {
    var recent := Recent(f, Cutoff(now));
    PairsKept(f, Cutoff(now));
    ProcessedAll(recent, Pairs(f));
    var g := Collected(recent, Pairs(f), sensor, Slots).value;
    CollectedHolds(recent, Pairs(f), sensor, Slots, rd);
    RecentSources(f, Cutoff(now), sensor, rd);
    if g.found {
      AsFrameShape(sensor, g);
      var r := AsFrame(sensor, g);
      assert rd in ReadingsOf(r) <==> rd in multiset(ReadingsOf(r));
      assert rd in g.readings <==> rd in multiset(g.readings);
    }
  }

  // Night shading in plotimg (lines 143-159)

  /** A span of time, from `start` to `end`. */
  datatype Span = Span(start: int, end: int)

  /** The night that begins on day `day`: its sunset, to its sunrise plus one day. */
  function Night(day: int, sunset: int -> int, sunrise: int -> int): Span {
    Span(sunset(day), sunrise(day) + UsPerDay)
  }

  /** The night raised to start no earlier than `first` and lowered to end no later
      than `last`: the times it keeps are exactly those in both. */
  function Clamp(night: Span, first: int, last: int): Span {
    var start := if night.start < first then first else night.start;
    var end := if night.end > last then last else night.end;
    Span(start, end)
  }

  lemma ClampIsIntersection(night: Span, first: int, last: int, t: int)
    ensures var c := Clamp(night, first, last);
            c.start <= t <= c.end <==> night.start <= t <= night.end && first <= t <= last
  {
  }

  predicate Shown(s: Span) {
    s.start < s.end
  }

  /** The spans shaded for the days from `dt` to `end`, one day apart. */
  function Shaded(dt: int, end: int, first: int, last: int, sunset: int -> int, sunrise: int -> int): seq<Span>
    decreases end - dt
  {
    if dt > end then []
    else Piece(dt, first, last, sunset, sunrise) + Shaded(dt + UsPerDay, end, first, last, sunset, sunrise)
  }

  /** The span shaded for day `dt`: its night clamped to the data, when not empty. */
  function Piece(dt: int, first: int, last: int, sunset: int -> int, sunrise: int -> int): seq<Span> {
    var c := Clamp(Night(dt / UsPerDay, sunset, sunrise), first, last);
    if Shown(c) then [c] else []
  }

  /** Every shaded span is non-empty and lies within the data. */
  lemma {:induction false} ShadedWithinData(dt: int, end: int, first: int, last: int, sunset: int -> int, sunrise: int -> int)
    ensures forall s :: s in Shaded(dt, end, first, last, sunset, sunrise) ==> first <= s.start < s.end <= last
    decreases end - dt
  {
    if dt <= end {
      ShadedWithinData(dt + UsPerDay, end, first, last, sunset, sunrise);
    }
  }

  /** Every shaded span is the clamped night of a day visited: one whose time is
      `dt` plus a whole number of days, and at most `end`. */
  lemma ShadedNights(dt: int, end: int, first: int, last: int, sunset: int -> int, sunrise: int -> int)
    ensures forall s :: s in Shaded(dt, end, first, last, sunset, sunrise) ==>
              exists d :: dt <= d <= end && (d - dt) % UsPerDay == 0 && s == Clamp(Night(d / UsPerDay, sunset, sunrise), first, last)
  {
    forall s | s in Shaded(dt, end, first, last, sunset, sunrise)
      ensures exists d :: dt <= d <= end && (d - dt) % UsPerDay == 0 && s == Clamp(Night(d / UsPerDay, sunset, sunrise), first, last)
    {
      var d := NightOf(dt, end, first, last, sunset, sunrise, s);
    }
  }

  /** The day whose clamped night a shaded span is. */
  lemma {:induction false} NightOf(dt: int, end: int, first: int, last: int, sunset: int -> int, sunrise: int -> int, s: Span)
    returns (d: int)
    requires s in Shaded(dt, end, first, last, sunset, sunrise)
    ensures dt <= d <= end && (d - dt) % UsPerDay == 0 && s == Clamp(Night(d / UsPerDay, sunset, sunrise), first, last)
    decreases end - dt
  {
    assert dt <= end;
    if s in Shaded(dt + UsPerDay, end, first, last, sunset, sunrise) {
      d := NightOf(dt + UsPerDay, end, first, last, sunset, sunrise, s);
      var k := (d - (dt + UsPerDay)) / UsPerDay;
      assert d - (dt + UsPerDay) == k * UsPerDay;
      assert d - dt == (k + 1) * UsPerDay;
    } else {
      assert s in Piece(dt, first, last, sunset, sunrise);
      d := dt;
    }
  }

  /** Concatenation regroups. Stated on its own, so that the loop below does not
      reason about sequence equality beside the loop invariant. */
  lemma AppendAssoc(a: seq<Span>, b: seq<Span>, c: seq<Span>)
    ensures (a + b) + c == a + (b + c)
  {
  }

  /** The loop over pd.date_range(first - 1 day, last + 1 day, freq='D'): each
      day's night is clamped to [first, last] and shaded when it is not empty. */
  method ShadeNights(first: int, last: int, sunset: int -> int, sunrise: int -> int) returns (spans: seq<Span>)
    ensures spans == Shaded(first - UsPerDay, last + UsPerDay, first, last, sunset, sunrise)
  {
    var startDate, endDate := first - UsPerDay, last + UsPerDay;
    spans := [];
    var dt := startDate;
    while dt <= endDate
      invariant spans + Shaded(dt, endDate, first, last, sunset, sunrise) == Shaded(startDate, endDate, first, last, sunset, sunrise)
      decreases endDate - dt
    {
      ghost var before := spans;
      var night := Night(dt / UsPerDay, sunset, sunrise);
      var nightStart, nightEnd := night.start, night.end;
      if nightStart < first {
        nightStart := first;
      }
      if nightEnd > last {
        nightEnd := last;
      }
      assert Span(nightStart, nightEnd) == Clamp(night, first, last);
      if nightStart < nightEnd {
        spans := spans + [Span(nightStart, nightEnd)];
      }
      ghost var piece := Piece(dt, first, last, sunset, sunrise);
      ghost var rest := Shaded(dt + UsPerDay, endDate, first, last, sunset, sunrise);
      assert spans == before + piece;
      assert Shaded(dt, endDate, first, last, sunset, sunrise) == piece + rest;
      AppendAssoc(before, piece, rest);
      dt := dt + UsPerDay;
    }
  }

  // handler

  const ImagePath: string := "/tmp/img.jpg"

  /** index.min(): the earliest time of a non-empty index. */
  function Earliest(ts: seq<int>): (t: int)
    requires ts != []
    ensures t in ts && forall i :: 0 <= i < |ts| ==> t <= ts[i]
  {
    if |ts| == 1 then ts[0]
    else
      var rest := Earliest(ts[1..]);
      if ts[0] <= rest then ts[0] else rest
  }

  /** index.max(): the latest time of a non-empty index. */
  function Latest(ts: seq<int>): (t: int)
    requires ts != []
    ensures t in ts && forall i :: 0 <= i < |ts| ==> ts[i] <= t
  {
    if |ts| == 1 then ts[0]
    else
      var rest := Latest(ts[1..]);
      if ts[0] >= rest then ts[0] else rest
  }

  /** The earliest and the latest reading time of the frame (index.min() and
      index.max()). */
  function Bounds(f: Frame): (b: Span)
    requires f.index != []
  {
    Span(Earliest(f.index), Latest(f.index))
  }

  /** On a frame sorted by time, as every frame `preprocess` gives is, the bounds
      are the first and the last reading time. */
  lemma BoundsOfSorted(f: Frame)
    requires f.index != []
    requires forall i, j :: 0 <= i <= j < |f.index| ==> f.index[i] <= f.index[j]
    ensures Bounds(f) == Span(f.index[0], f.index[|f.index| - 1])
  {
    var b := Bounds(f);
    assert b.start <= f.index[0];
    assert f.index[|f.index| - 1] <= b.end;
  }

  /** What plotimg draws that the model keeps, for the three sensor frames: it
      fails with IndexError for the first of temperature, humidity and particles
      whose frame is empty (annotate_line_end reads its last row), and otherwise
      shades the nights within the span of the temperature readings. */
  function Plotted(m: map<string, Frame>, sunset: int -> int, sunrise: int -> int): Result<seq<Span>, Failure>
    requires forall s :: s in SensorTypes ==> s in m
  {
    if m[SensorTypes[0]].index == [] then Err(IndexError(SensorTypes[0]))
    else if m[SensorTypes[1]].index == [] then Err(IndexError(SensorTypes[1]))
    else if m[SensorTypes[2]].index == [] then Err(IndexError(SensorTypes[2]))
    else
      var b := Bounds(m[SensorTypes[0]]);
      Ok(Shaded(b.start - UsPerDay, b.end + UsPerDay, b.start, b.end, sunset, sunrise))
  }

  /** plotimg succeeds exactly when every sensor frame has a row; on failure it
      names the first empty frame in the order temperature, humidity, particles. */
  lemma PlottedFails(m: map<string, Frame>, sunset: int -> int, sunrise: int -> int)
    requires forall s :: s in SensorTypes ==> s in m
    ensures Plotted(m, sunset, sunrise).Ok? <==> forall s :: s in SensorTypes ==> m[s].index != []
    ensures Plotted(m, sunset, sunrise).Err? ==>
              exists k :: 0 <= k < |SensorTypes| && Plotted(m, sunset, sunrise).error == IndexError(SensorTypes[k])
                          && m[SensorTypes[k]].index == [] && forall j :: 0 <= j < k ==> m[SensorTypes[j]].index != []
  {
    if m[SensorTypes[0]].index == [] {
      assert Plotted(m, sunset, sunrise).error == IndexError(SensorTypes[0]);
    } else if m[SensorTypes[1]].index == [] {
      assert Plotted(m, sunset, sunrise).error == IndexError(SensorTypes[1]);
    } else if m[SensorTypes[2]].index == [] {
      assert Plotted(m, sunset, sunrise).error == IndexError(SensorTypes[2]);
    }
  }

  /** Every span plotimg shades is non-empty and lies between the first and the
      last temperature reading, and is the clamped night of a day from one day
      before the first reading to one day after the last. */
  lemma PlottedSpans(m: map<string, Frame>, sunset: int -> int, sunrise: int -> int)
    requires forall s :: s in SensorTypes ==> s in m
    requires Plotted(m, sunset, sunrise).Ok?
    ensures var b := Bounds(m[SensorTypes[0]]);
            forall s :: s in Plotted(m, sunset, sunrise).value ==>
              && b.start <= s.start < s.end <= b.end
              && exists d :: b.start - UsPerDay <= d <= b.end + UsPerDay && (d - (b.start - UsPerDay)) % UsPerDay == 0
                             && s == Clamp(Night(d / UsPerDay, sunset, sunrise), b.start, b.end)
  {
    var b := Bounds(m[SensorTypes[0]]);
    ShadedWithinData(b.start - UsPerDay, b.end + UsPerDay, b.start, b.end, sunset, sunrise);
    ShadedNights(b.start - UsPerDay, b.end + UsPerDay, b.start, b.end, sunset, sunrise);
  }

  /** plotimg(df_dict), up to the image it saves. */
  method PlotImg(m: map<string, Frame>, sunset: int -> int, sunrise: int -> int) returns (r: Result<seq<Span>, Failure>)
    requires forall s :: s in SensorTypes ==> s in m
    ensures r == Plotted(m, sunset, sunrise)
  {
    var dft, dfh, dfp := m[SensorTypes[0]], m[SensorTypes[1]], m[SensorTypes[2]];
    if dft.index == [] {
      return Err(IndexError(SensorTypes[0]));
    }
    if dfh.index == [] {
      return Err(IndexError(SensorTypes[1]));
    }
    if dfp.index == [] {
      return Err(IndexError(SensorTypes[2]));
    }
    var bounds := Bounds(dft);
    var spans := ShadeNights(bounds.start, bounds.end, sunset, sunrise);
    return Ok(spans);
  }

  /** handler(dfs): only dfs[0] is used, and with no dataset it fails at dfs[0]
      (there is no fallback frame). It fails as `preprocess` or `plotimg` fails, and then saves nothing;
      otherwise it saves the image and answers it, base64-encoded. */
  method Handler(dfs: seq<Frame>, now: int, sunset: int -> int, sunrise: int -> int,
                 image: seq<byte>, files: ImageResponse.Files)
    returns (saved: ImageResponse.Files, spans: seq<Span>, response: Result<ImageResponse.Response, Failure>)
    requires |dfs| > 0 ==> WellFormed(dfs[0])
    ensures |dfs| == 0 ==> response == Err(NoDataset)
    ensures |dfs| > 0 ==> var p := Preprocessed(dfs[0], now);
            && (p.Err? ==> response == Err(p.error))
            && (p.Ok? ==> (forall s :: s in SensorTypes ==> s in p.value) &&
                          var q := Plotted(p.value, sunset, sunrise);
                          && (q.Err? ==> response == Err(q.error))
                          && (q.Ok? ==> response.Ok? && spans == q.value))
    ensures response.Err? ==> saved == files && spans == []
    ensures response.Ok? ==>
              && saved == files[ImagePath := image]
              && response.value.statusCode == 200 && response.value.isBase64Encoded
              && response.value.headers == map["Content-Type" := "image/jpg"]
              && Base64.Decode(response.value.body) == Some(image)
  {
    if |dfs| == 0 {
      return files, [], Err(NoDataset);
    }
    var processed := Preprocess(dfs[0], now);
    if processed.Err? {
      return files, [], Err(processed.error);
    }
    ghost var recent := Recent(dfs[0], Cutoff(now));
    ProcessedAll(recent, Pairs(recent));
    var plotted := PlotImg(processed.value, sunset, sunrise);
    if plotted.Err? {
      return files, [], Err(plotted.error);
    }
    spans := plotted.value;
    saved := files[ImagePath := image];
    var returned := ImageResponse.ReturnImg(saved, ImagePath, "image/jpg");
    response := Ok(returned.value);
  }
}
