/** 25-synology-temperature/synology-graph.py: plots the disk temperatures logged by
    the Synology poller. `plotimg` coerces the caller's `temperature` column to
    numbers and adds a `datetime` column, keeps the last week, draws one panel per
    (server, disk) pair with its readings in time order as a line coloured by
    temperature, and gives every panel the same temperature range. Times are integer
    microseconds; the drawing itself is not modelled, only what is handed to it. */
module SynologyGraph {
  import opened Common
  import opened Frames
  import ImageResponse
  import Base64

  // colorline

  /** A point of a line: its time and its temperature. */
  datatype Point = Point(x: int, y: Cell)

  datatype Segment = Segment(start: Point, end: Point)

  /** plt.Normalize(vmin, vmax): the temperatures mapped to the two ends of the
      colour map. */
  datatype Norm = Norm(vmin: real, vmax: real)

  /** What colorline hands to the LineCollection: the segments, the value that
      colours each, and the normalisation. */
  datatype LineCollection = LineCollection(segments: seq<Segment>, colors: seq<Cell>, norm: Norm)

  /** colorline(x, y, z, norm): for n points, n - 1 segments, segment i from point i
      to point i + 1 and coloured by z[i] (z defaults to y), so the last colour value
      is never used and the segments join into one line through every point; the
      normalisation is 15 to 50 whatever `norm` is passed. */
  function ColorLine(x: seq<int>, y: seq<Cell>, z: Option<seq<Cell>>, norm: Option<Norm>): (lc: LineCollection)
    requires |y| == |x| && (z.Some? ==> |z.value| == |x|)
    ensures |lc.segments| == |lc.colors| == (if |x| == 0 then 0 else |x| - 1)
    ensures forall i :: 0 <= i < |lc.segments| ==>
              lc.segments[i].start == Point(x[i], y[i]) && lc.segments[i].end == Point(x[i + 1], y[i + 1])
    ensures forall i :: 0 <= i < |lc.colors| ==> lc.colors[i] == (if z.Some? then z.value[i] else y[i])
    ensures forall i :: 0 < i < |lc.segments| ==> lc.segments[i].start == lc.segments[i - 1].end
    ensures lc.norm == Norm(15.0, 50.0)
  {
    var colours := if z.Some? then z.value else y;
    var n := if |x| == 0 then 0 else |x| - 1;
    LineCollection(seq(n, i requires 0 <= i < n => Segment(Point(x[i], y[i]), Point(x[i + 1], y[i + 1]))),
                   colours[..n], Norm(15.0, 50.0))
  }

  // The last week

  const UsPerDay: int := 86_400_000_000

  /** pd.to_datetime on the index; `toTime` stands for the library's conversion of
      one index value to an instant (None for NaT). Converting to Europe/Berlin
      keeps the instant. */
  function DatetimeCells(index: seq<Cell>, toTime: Cell -> Option<int>): (cells: seq<Cell>)
    ensures |cells| == |index|
    ensures forall i :: 0 <= i < |index| ==>
              cells[i] == (if toTime(index[i]).Some? then Time(toTime(index[i]).value) else Missing)
  {
    seq(|index|, i requires 0 <= i < |index| =>
      if toTime(index[i]).Some? then Time(toTime(index[i]).value) else Missing)
  }

  /** One plotted row: its instant, its server and disk cells and its temperature. */
  datatype Row = Row(time: int, server: Cell, disk: Cell, temperature: Cell)

  function TimeOf(r: Row): int {
    r.time
  }

  /** The row at position i, when its datetime is a time. */
  predicate RowAt(times: seq<Cell>, servers: seq<Cell>, disks: seq<Cell>, temps: seq<Cell>, i: int, r: Row)
    requires |servers| == |times| && |disks| == |times| && |temps| == |times|
  {
    0 <= i < |times| && times[i] == Time(r.time) && r == Row(r.time, servers[i], disks[i], temps[i])
  }

  /** data[data['datetime'] >= since]: the rows whose time is at least `since`, in
      their order; a missing time (NaT) compares false and is dropped. */
  function Since(times: seq<Cell>, servers: seq<Cell>, disks: seq<Cell>, temps: seq<Cell>, since: int): seq<Row>
    requires |servers| == |times| && |disks| == |times| && |temps| == |times|
  {
    if times == [] then []
    else
      var n := |times| - 1;
      Since(times[..n], servers[..n], disks[..n], temps[..n], since)
      + (if times[n].Time? && times[n].t >= since then [Row(times[n].t, servers[n], disks[n], temps[n])] else [])
  }

  /** A row is kept exactly when some row of the frame has it, with a time no
      earlier than `since`. */
  lemma {:induction false} SinceMembers(times: seq<Cell>, servers: seq<Cell>, disks: seq<Cell>, temps: seq<Cell>, since: int, r: Row)
    requires |servers| == |times| && |disks| == |times| && |temps| == |times|
    ensures r in Since(times, servers, disks, temps, since) <==>
              r.time >= since && exists i :: RowAt(times, servers, disks, temps, i, r)
    decreases |times|
  {
    if times != [] {
      var n := |times| - 1;
      var ti, si, di, pi := times[..n], servers[..n], disks[..n], temps[..n];
      SinceMembers(ti, si, di, pi, since, r);
      if r.time >= since && exists i :: RowAt(times, servers, disks, temps, i, r) {
        var i :| RowAt(times, servers, disks, temps, i, r);
        if i < n {
          assert RowAt(ti, si, di, pi, i, r);
        } else {
          assert r == Row(times[n].t, servers[n], disks[n], temps[n]);
        }
      }
      if r in Since(times, servers, disks, temps, since) {
        if r in Since(ti, si, di, pi, since) {
          var i :| RowAt(ti, si, di, pi, i, r);
          assert RowAt(times, servers, disks, temps, i, r);
        } else {
          assert RowAt(times, servers, disks, temps, n, r);
        }
      }
    }
  }

  /** now - pd.Timedelta(days=7). */
  function OneWeekAgo(now: int): int {
    now - 7 * UsPerDay
  }

  // groupby(['server_name', 'name'])

  /** A group's key: the server's name and the disk's name. */
  datatype Key = Key(server: string, disk: string)

  /** The key of a row; a row whose server or disk cell is not text (a missing
      value) belongs to no group. */
  function KeyOf(r: Row): (k: Option<Key>)
    ensures k.Some? <==> r.server.Text? && r.disk.Text?
    ensures k.Some? ==> k.value == Key(r.server.s, r.disk.s)
  {
    if r.server.Text? && r.disk.Text? then Some(Key(r.server.s, r.disk.s)) else None
  }

  /** Python's order on (server, disk) tuples. */
  predicate KeyLess(a: Key, b: Key) {
    LexLess(a.server, b.server) || (a.server == b.server && LexLess(a.disk, b.disk))
  }

  lemma KeyLessIsStrictTotalOrder()
    ensures StrictTotalOrder(KeyLess)
  {
    LexLessIsStrictTotalOrder();
    forall a: Key, b: Key, c: Key | KeyLess(a, b) && KeyLess(b, c) ensures KeyLess(a, c) {
      if a.server != c.server {
        assert LexLess(a.server, b.server) || LexLess(b.server, c.server);
      }
    }
  }

  /** The keys of the rows that have one. */
  ghost function KeySet(rows: seq<Row>): set<Key> {
    set r | r in rows && KeyOf(r).Some? :: KeyOf(r).value
  }

  /** The groups, in the order groupby visits them: every key once, ascending. */
  ghost function Keys(rows: seq<Row>): (keys: seq<Key>)
    ensures StrictlySorted(keys, KeyLess)
    ensures forall k :: k in keys <==> exists r :: r in rows && KeyOf(r) == Some(k)
  {
    KeyLessIsStrictTotalOrder();
    SortedSet(KeySet(rows), KeyLess)
  }

  /** The groupby's keys, gathered row by row. */
  method GroupKeys(rows: seq<Row>) returns (keys: seq<Key>)
    ensures keys == Keys(rows)
  {
    KeyLessIsStrictTotalOrder();
    keys := [];
    var i := 0;
    while i < |rows|
      invariant 0 <= i <= |rows|
      invariant StrictlySorted(keys, KeyLess)
      invariant forall k :: k in keys <==> exists r :: r in rows[..i] && KeyOf(r) == Some(k)
    {
      var key := KeyOf(rows[i]);
      if key.Some? {
        keys := InsertSorted(key.value, keys, KeyLess);
      }
      assert rows[..i + 1] == rows[..i] + [rows[i]];
      i := i + 1;
    }
    assert rows[..i] == rows;
    StrictlySortedUnique(keys, Keys(rows), KeyLess);
  }

  /** The rows of one group, in their order in the frame. */
  function Group(rows: seq<Row>, key: Key): seq<Row> {
    if rows == [] then []
    else
      var n := |rows| - 1;
      Group(rows[..n], key) + (if KeyOf(rows[n]) == Some(key) then [rows[n]] else [])
  }

  /** A group holds exactly the rows with its key, each as often as the frame does. */
  lemma {:induction false} GroupMembers(rows: seq<Row>, key: Key, r: Row)
    ensures multiset(Group(rows, key))[r] == if KeyOf(r) == Some(key) then multiset(rows)[r] else 0
    decreases |rows|
  {
    if rows != [] {
      var n := |rows| - 1;
      GroupMembers(rows[..n], key, r);
      assert rows == rows[..n] + [rows[n]];
    }
  }

  /** group.sort_values('datetime'): ordered by time; it holds the group's rows. */
  function SortedGroup(rows: seq<Row>, key: Key): (g: seq<Row>)
    ensures SortedBy(g, TimeOf)
    ensures multiset(g) == multiset(Group(rows, key))
  {
    SortByKey(Group(rows, key), TimeOf)
  }

  // The shared temperature range

  /** The numbers among the cells, in order; the minimum and maximum skip the
      missing values. */
  function Numbers(cells: seq<Cell>): (v: seq<real>)
    ensures forall x :: x in v <==> Num(x) in cells
  {
    if cells == [] then []
    else
      var n := |cells| - 1;
      assert cells == cells[..n] + [cells[n]];
      Numbers(cells[..n]) + (if cells[n].Num? then [cells[n].x] else [])
  }

  function Least(v: seq<real>): (m: real)
    requires v != []
    ensures m in v && forall x :: x in v ==> m <= x
  {
    if |v| == 1 then v[0]
    else
      var m := Least(v[1..]);
      assert v == [v[0]] + v[1..];
      if v[0] < m then v[0] else m
  }

  function Greatest(v: seq<real>): (m: real)
    requires v != []
    ensures m in v && forall x :: x in v ==> x <= m
  {
    if |v| == 1 then v[0]
    else
      var m := Greatest(v[1..]);
      assert v == [v[0]] + v[1..];
      if v[0] > m then v[0] else m
  }

  /** The y-axis limits of every panel. */
  datatype Limits = Limits(low: real, high: real)

  /** (min(temp_min, 20), max(temp_max, 45)); with no number at all the minimum and
      maximum are NaN, and so are both limits (None). */
  function YRange(temps: seq<Cell>): Option<Limits> {
    var v := Numbers(temps);
    if v == [] then None
    else
      var lo, hi := Least(v), Greatest(v);
      Some(Limits(if 20.0 < lo then 20.0 else lo, if 45.0 > hi then 45.0 else hi))
  }

  /** The range is NaN exactly when no temperature is a number. Otherwise it
      contains [20, 45] and every temperature, and each limit is its reference
      line or a temperature, so it is the least such range. */
  lemma YRangeCovers(temps: seq<Cell>)
    ensures YRange(temps).None? <==> forall x :: Num(x) !in temps
    ensures YRange(temps).Some? ==>
              var l := YRange(temps).value;
              && l.low <= 20.0 && 45.0 <= l.high
              && (forall x :: Num(x) in temps ==> l.low <= x <= l.high)
              && (l.low == 20.0 || Num(l.low) in temps)
              && (l.high == 45.0 || Num(l.high) in temps)
  {
    var v := Numbers(temps);
    if v != [] {
      assert Least(v) in v && Greatest(v) in v;
    } else {
      forall x ensures Num(x) !in temps {
        assert x !in v;
      }
    }
  }

  // plotimg

  /** One panel: its title's server and disk, its coloured line, its y limits. */
  datatype Panel = Panel(key: Key, line: LineCollection, limits: Limits)

  function Times(g: seq<Row>): (x: seq<int>)
    ensures |x| == |g| && forall i :: 0 <= i < |g| ==> x[i] == g[i].time
  {
    seq(|g|, i requires 0 <= i < |g| => g[i].time)
  }

  function Temperatures(g: seq<Row>): (y: seq<Cell>)
    ensures |y| == |g| && forall i :: 0 <= i < |g| ==> y[i] == g[i].temperature
  {
    seq(|g|, i requires 0 <= i < |g| => g[i].temperature)
  }

  /** The panel of one group: its rows sorted by time, drawn by colorline with the
      temperatures as colours and no norm passed. */
  function PanelOf(rows: seq<Row>, key: Key, limits: Limits): Panel {
    var g := SortedGroup(rows, key);
    Panel(key, ColorLine(Times(g), Temperatures(g), Some(Temperatures(g)), None), limits)
  }

  /** df['temperature'] missing or a groupby column missing raises KeyError;
      plt.subplots with no group raises ValueError, and so does set_ylim with NaN
      limits. */
  datatype Failure = KeyError(column: string) | NoGroups | NaNLimits

  /** The columns plotimg leaves in the caller's frame: `temperature` coerced to
      numbers, and `datetime` set from the index. */
  function Coerced(index: seq<Cell>, cols: seq<Column>, parse: string -> Option<real>, toTime: Cell -> Option<int>): (r: seq<Column>)
    requires Find(cols, "temperature").Some?
    ensures Find(r, "datetime").Some? && Find(r, "temperature").Some?
    ensures WellFormed(index, cols) ==> WellFormed(index, r)
  {
    var temperature := ToNumericAll(cols[Find(cols, "temperature").value].cells, parse);
    Assigned(Assigned(cols, "temperature", temperature), "datetime", DatetimeCells(index, toTime))
  }

  predicate WellFormed(index: seq<Cell>, cols: seq<Column>) {
    forall j :: 0 <= j < |cols| ==> |cols[j].cells| == |index|
  }

  /** The rows of the last week, once the frame has its `datetime`,
      `server_name`, `name` and `temperature` columns. */
  function Week(index: seq<Cell>, cols: seq<Column>, now: int): seq<Row>
    requires WellFormed(index, cols)
    requires Find(cols, "datetime").Some? && Find(cols, "server_name").Some?
    requires Find(cols, "name").Some? && Find(cols, "temperature").Some?
  {
    Since(cols[Find(cols, "datetime").value].cells, cols[Find(cols, "server_name").value].cells,
          cols[Find(cols, "name").value].cells, cols[Find(cols, "temperature").value].cells, OneWeekAgo(now))
  }

  /** The panels of the given keys' groups, all with the same limits. */
  function PanelsFor(rows: seq<Row>, keys: seq<Key>, limits: Limits): (panels: seq<Panel>)
    ensures |panels| == |keys|
    ensures forall i :: 0 <= i < |keys| ==> panels[i] == PanelOf(rows, keys[i], limits)
  {
    seq(|keys|, i requires 0 <= i < |keys| => PanelOf(rows, keys[i], limits))
  }

  /** What plotimg draws from the rows of the last week: no group raises, NaN
      limits raise, else one panel per group in key order. */
  ghost function Drawn(rows: seq<Row>): Result<seq<Panel>, Failure> {
    var keys := Keys(rows);
    if keys == [] then Err(NoGroups)
    else
      var limits := YRange(Temperatures(rows));
      if limits.None? then Err(NaNLimits)
      else Ok(PanelsFor(rows, keys, limits.value))
  }

  /** The rows of the week are drawn exactly when one of them belongs to a group
      and one temperature among them is a number. */
  lemma DrawnFails(rows: seq<Row>)
    ensures Drawn(rows).Ok? <==> (exists r :: r in rows && KeyOf(r).Some?) && (exists x :: Num(x) in Temperatures(rows))
    ensures Drawn(rows) == Err(NoGroups) <==> forall r :: r in rows ==> KeyOf(r).None?
  {
    YRangeCovers(Temperatures(rows));
    var keys := Keys(rows);
    if exists r :: r in rows && KeyOf(r).Some? {
      var r :| r in rows && KeyOf(r).Some?;
      assert KeyOf(r).value in keys;
    }
    if keys != [] {
      assert keys[0] in keys;
    }
  }

  /** On success the panels are those of the week's (server, disk) pairs, one per
      pair, in ascending order of the pair. */
  lemma DrawnKeys(rows: seq<Row>)
    requires Drawn(rows).Ok?
    ensures var panels := Drawn(rows).value;
            && (forall i, j :: 0 <= i < j < |panels| ==> KeyLess(panels[i].key, panels[j].key))
            && forall k :: (exists i :: 0 <= i < |panels| && panels[i].key == k) <==> (exists r :: r in rows && KeyOf(r) == Some(k))
  {
    var keys := Keys(rows);
    var panels := Drawn(rows).value;
    assert panels == PanelsFor(rows, keys, YRange(Temperatures(rows)).value);
    PanelKeys(panels, keys);
  }

  /** Panels drawn for the given keys, one each, carry those keys in that order. */
  lemma PanelKeys(panels: seq<Panel>, keys: seq<Key>)
    requires |panels| == |keys| && forall i :: 0 <= i < |keys| ==> panels[i].key == keys[i]
    ensures StrictlySorted(keys, KeyLess) ==> forall i, j :: 0 <= i < j < |panels| ==> KeyLess(panels[i].key, panels[j].key)
    ensures forall k :: (exists i :: 0 <= i < |panels| && panels[i].key == k) <==> k in keys
  {
    forall k | k in keys ensures exists i :: 0 <= i < |panels| && panels[i].key == k {
      var i :| 0 <= i < |keys| && keys[i] == k;
      assert panels[i].key == k;
    }
  }

  /** The panel of a group draws its rows sorted by time, joined point to point. */
  lemma PanelOfLine(rows: seq<Row>, key: Key, limits: Limits, r: Row)
    ensures var p, g := PanelOf(rows, key, limits), SortedGroup(rows, key);
            && p.key == key && p.limits == limits
            && SortedBy(g, TimeOf)
            && multiset(g)[r] == (if KeyOf(r) == Some(key) then multiset(rows)[r] else 0)
            && |p.line.segments| == (if |g| == 0 then 0 else |g| - 1)
            && forall k :: 0 <= k < |p.line.segments| ==>
                 p.line.segments[k] == Segment(Point(g[k].time, g[k].temperature), Point(g[k + 1].time, g[k + 1].temperature))
  {
    GroupMembers(rows, key, r);
  }

  /** On success each panel's line runs through exactly its pair's rows of the
      week, ordered by time, and every panel's range contains [20, 45] and every
      temperature of the week. */
  lemma DrawnPanels(rows: seq<Row>, r: Row)
    requires Drawn(rows).Ok?
    ensures var panels := Drawn(rows).value;
            forall i :: 0 <= i < |panels| ==>
              var g := SortedGroup(rows, panels[i].key);
              && SortedBy(g, TimeOf)
              && multiset(g)[r] == (if KeyOf(r) == Some(panels[i].key) then multiset(rows)[r] else 0)
              && |panels[i].line.segments| == (if |g| == 0 then 0 else |g| - 1)
              && (forall k :: 0 <= k < |panels[i].line.segments| ==>
                    panels[i].line.segments[k] == Segment(Point(g[k].time, g[k].temperature), Point(g[k + 1].time, g[k + 1].temperature)))
              && panels[i].limits.low <= 20.0 && 45.0 <= panels[i].limits.high
              && forall x :: Num(x) in Temperatures(rows) ==> panels[i].limits.low <= x <= panels[i].limits.high
  {
    var panels, keys := Drawn(rows).value, Keys(rows);
    var limits := YRange(Temperatures(rows)).value;
    YRangeCovers(Temperatures(rows));
    assert panels == PanelsFor(rows, keys, limits);
    forall i | 0 <= i < |panels|
      ensures var g := SortedGroup(rows, panels[i].key);
              && SortedBy(g, TimeOf)
              && multiset(g)[r] == (if KeyOf(r) == Some(panels[i].key) then multiset(rows)[r] else 0)
              && |panels[i].line.segments| == (if |g| == 0 then 0 else |g| - 1)
              && (forall k :: 0 <= k < |panels[i].line.segments| ==>
                    panels[i].line.segments[k] == Segment(Point(g[k].time, g[k].temperature), Point(g[k + 1].time, g[k + 1].temperature)))
              && panels[i].limits == limits
    {
      assert panels[i] == PanelOf(rows, keys[i], limits);
      PanelOfLine(rows, keys[i], limits, r);
    }
  }

  /** The loop of plotimg over zip(axes, groups): one panel per group, in order. */
  method DrawPanels(rows: seq<Row>, keys: seq<Key>, limits: Limits) returns (panels: seq<Panel>)
    ensures panels == PanelsFor(rows, keys, limits)
  {
    panels := [];
    var i := 0;
    while i < |keys|
      invariant 0 <= i <= |keys|
      invariant panels == PanelsFor(rows, keys[..i], limits)
    {
      var g := SortedGroup(rows, keys[i]);
      var line := ColorLine(Times(g), Temperatures(g), Some(Temperatures(g)), None);
      panels := panels + [Panel(keys[i], line, limits)];
      assert keys[..i + 1] == keys[..i] + [keys[i]];
      i := i + 1;
    }
    assert keys[..i] == keys;
  }

  /** plotimg from the groupby to the last panel. */
  method Draw(rows: seq<Row>) returns (r: Result<seq<Panel>, Failure>)
    ensures r == Drawn(rows)
  {
    var keys := GroupKeys(rows);
    if keys == [] {
      return Err(NoGroups);
    }
    var limits := YRange(Temperatures(rows));
    if limits.None? {
      return Err(NaNLimits);
    }
    var panels := DrawPanels(rows, keys, limits.value);
    return Ok(panels);
  }

  /** What plotimg hands to the drawing for a frame that already holds its
      `datetime` and `temperature` columns: a missing groupby column raises, else
      the rows of the last week are drawn. */
  ghost function Plotted(index: seq<Cell>, cols: seq<Column>, now: int): Result<seq<Panel>, Failure>
    requires WellFormed(index, cols) && Find(cols, "datetime").Some? && Find(cols, "temperature").Some?
  {
    if Find(cols, "server_name").None? then Err(KeyError("server_name"))
    else if Find(cols, "name").None? then Err(KeyError("name"))
    else Drawn(Week(index, cols, now))
  }

  /** plotimg after the frame has been changed. */
  method Panels(index: seq<Cell>, cols: seq<Column>, now: int) returns (r: Result<seq<Panel>, Failure>)
    requires WellFormed(index, cols) && Find(cols, "datetime").Some? && Find(cols, "temperature").Some?
    ensures r == Plotted(index, cols, now)
  {
    if Find(cols, "server_name").None? {
      return Err(KeyError("server_name"));
    }
    if Find(cols, "name").None? {
      return Err(KeyError("name"));
    }
    r := Draw(Week(index, cols, now));
  }

  /** What plotimg hands to the drawing for the frame as the caller passes it. */
  ghost function PlotOf(index: seq<Cell>, cols: seq<Column>, parse: string -> Option<real>,
                        toTime: Cell -> Option<int>, now: int): Result<seq<Panel>, Failure>
    requires WellFormed(index, cols)
  {
    if Find(cols, "temperature").None? then Err(KeyError("temperature"))
    else Plotted(index, Coerced(index, cols, parse, toTime), now)
  }

  /** plotimg(df), up to the image it saves: the caller's frame gets its
      `temperature` column coerced and a `datetime` column (and is left as it was
      when it has no `temperature` column), then the panels are built. */
  method PlotImg(df: DataFrame, parse: string -> Option<real>, toTime: Cell -> Option<int>, now: int)
    returns (r: Result<seq<Panel>, Failure>)
    requires df.Valid()
    modifies df
    ensures df.Valid() && df.index == old(df.index)
    ensures df.columns == if Find(old(df.columns), "temperature").None? then old(df.columns)
                          else Coerced(df.index, old(df.columns), parse, toTime)
    ensures r == PlotOf(old(df.index), old(df.columns), parse, toTime, now)
  {
    var t := Find(df.columns, "temperature");
    if t.None? {
      return Err(KeyError("temperature"));
    }
    df.Assign("temperature", ToNumericAll(df.columns[t.value].cells, parse));
    df.Assign("datetime", DatetimeCells(df.index, toTime));
    r := Panels(df.index, df.columns, now);
  }

  const OutputType: string := "png"

  /** Where plotimg saves the image and returnimg reads it: '/tmp/img' + 'png',
      with no dot. */
  const ImagePath: string := "/tmp/img" + OutputType

  /** handler(dfs): the first dataset, or with none a dummy frame (index [0, 1],
      column `value` = [1, 2]), is plotted; the dummy frame has no `temperature`
      column, so with no dataset the handler raises KeyError. Otherwise the
      renderer's bytes `image` are saved at ImagePath and returned base64 encoded. */
  method Handler(dfs: seq<DataFrame>, parse: string -> Option<real>, toTime: Cell -> Option<int>,
                 now: int, image: seq<byte>, files: ImageResponse.Files)
    returns (saved: ImageResponse.Files, response: Result<ImageResponse.Response, Failure>)
    requires |dfs| > 0 ==> dfs[0].Valid()
    modifies if |dfs| > 0 then {dfs[0]} else {}
    ensures |dfs| == 0 ==> response == Err(KeyError("temperature"))
    ensures |dfs| > 0 ==>
              var p := PlotOf(old(dfs[0].index), old(dfs[0].columns), parse, toTime, now);
              (response.Ok? <==> p.Ok?) && (p.Err? ==> response == Err(p.error))
    ensures response.Err? ==> saved == files
    ensures response.Ok? ==>
              && saved == files[ImagePath := image]
              && response.value.statusCode == 200 && response.value.isBase64Encoded
              && response.value.headers == map["Content-Type" := "image/" + OutputType]
              && Base64.Decode(response.value.body) == Some(image)
  {
    var df: DataFrame;
    if |dfs| > 0 {
      df := dfs[0];
    } else {
      df := new DataFrame([Num(0.0), Num(1.0)], Some("timestamp"), [Column("value", [Num(1.0), Num(2.0)])]);
      assert Find(df.columns, "temperature").None?;
    }
    var plotted := PlotImg(df, parse, toTime, now);
    if plotted.Err? {
      return files, Err(plotted.error);
    }
    saved := files[ImagePath := image];
    var returned := ImageResponse.ReturnImg(saved, ImagePath, "image/" + OutputType);
    response := Ok(returned.value);
  }
}
