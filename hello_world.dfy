/** 00-default_code/00_hello_world.py: the boilerplate handler. It coerces every column
    of the first dataset to numbers where that loses nothing, plots it (or a dummy frame
    when no dataset is given) and returns the image; a local runner loads the datasets
    from CSV files. */
module HelloWorld {
  import opened Common
  import opened Frames
  import ImageResponse
  import Base64

  const OutputType: string := "jpg"

  /** plotimg saves the figure at, and returns, "/tmp/img" + OUTPUT_TYPE. */
  const ImagePath: string := "/tmp/img" + OutputType

  /** Converting the column adds no missing value: every text cell is a number. */
  predicate ConvertsCleanly(cells: seq<Cell>, parse: string -> Option<real>) {
    forall i :: 0 <= i < |cells| && cells[i].Text? ==> cells[i].s != "" && parse(cells[i].s).Some?
  }

  /** Conversion never removes a missing value, and adds one exactly when some text
      cell is not a number. */
  lemma {:induction false} ConvertMissingCount(cells: seq<Cell>, parse: string -> Option<real>)
    ensures CountMissing(ToNumericAll(cells, parse)) >= CountMissing(cells)
    ensures CountMissing(ToNumericAll(cells, parse)) == CountMissing(cells)
            <==> ConvertsCleanly(cells, parse)
  {
    if cells != [] {
      var n := |cells|;
      var init := cells[..n - 1];
      ConvertMissingCount(init, parse);
      assert ToNumericAll(cells, parse)[..n - 1] == ToNumericAll(init, parse);
      assert ConvertsCleanly(cells, parse) <==>
             ConvertsCleanly(init, parse) && (cells[n - 1].Text? ==> !ToNumeric(cells[n - 1], parse).Missing?);
    }
  }

  /** covert_to_numeric on one column: the converted values when conversion yields no
      more missing values than the column had, the original values untouched otherwise. */
  function CoerceColumn(col: Column, parse: string -> Option<real>): (r: Column)
    ensures r.name == col.name && |r.cells| == |col.cells|
    ensures ConvertsCleanly(col.cells, parse) ==> r.cells == ToNumericAll(col.cells, parse)
    ensures !ConvertsCleanly(col.cells, parse) ==> r == col
  {
    var converted := ToNumericAll(col.cells, parse);
    ConvertMissingCount(col.cells, parse);
    if CountMissing(converted) > CountMissing(col.cells) then col
    else Column(col.name, converted)
  }

  /** The position, from `from` on, of the first name that another column also
      has; every name before it is unique. */
  function FirstRepeated(names: seq<string>, from: nat): (r: Option<nat>)
    requires from <= |names|
    decreases |names| - from
    ensures r.Some? ==> from <= r.value < |names| && !UniqueName(names, r.value)
    ensures var stop := if r.Some? then r.value else |names|;
            forall k :: from <= k < stop ==> UniqueName(names, k)
  {
    if from == |names| then None
    else if !UniqueName(names, from) then Some(from)
    else FirstRepeated(names, from + 1)
  }

  /** The columns once those before `stop` are coerced. */
  function CoercedBefore(cols: seq<Column>, stop: nat, parse: string -> Option<real>): (r: seq<Column>)
    ensures |r| == |cols|
  {
    seq(|cols|, j requires 0 <= j < |cols| => if j < stop then CoerceColumn(cols[j], parse) else cols[j])
  }

  /** covert_to_numeric: every column in turn is replaced in place by its coerced
      form, names and order kept. On a name that repeats, `df[column]` is a frame
      and `pd.to_numeric` raises TypeError: the loop stops at the first such column,
      with the columns before it already coerced. */
  method CoerceNumeric(df: DataFrame, parse: string -> Option<real>) returns (failedAt: Option<nat>)
    requires df.Valid()
    modifies df
    ensures df.Valid() && df.index == old(df.index) && df.indexName == old(df.indexName)
    ensures failedAt == FirstRepeated(Names(old(df.columns)), 0)
    ensures df.columns == CoercedBefore(old(df.columns),
                                        if failedAt.Some? then failedAt.value else |old(df.columns)|, parse)
  {
    var names := Names(df.columns);
    var j := 0;
    while j < |df.columns|
      invariant 0 <= j <= |df.columns| == |old(df.columns)|
      invariant names == Names(old(df.columns))
      invariant df.index == old(df.index) && df.indexName == old(df.indexName) && df.Valid()
      invariant FirstRepeated(names, 0) == FirstRepeated(names, j)
      invariant df.columns == CoercedBefore(old(df.columns), j, parse)
    {
      if !UniqueName(names, j) {
        return Some(j);
      }
      df.columns := df.columns[j := CoerceColumn(df.columns[j], parse)];
      j := j + 1;
    }
    return None;
  }

  /** What the handler can meet: TypeError from `pd.to_numeric` on a repeated column
      name, or `plt.plot` given a frame in which some column kept its text. */
  datatype Failure = TypeError(column: nat) | TextNotPlottable

  /** Some column holds text, which `plt.plot` cannot draw. */
  predicate HoldsText(cols: seq<Column>) {
    exists j, i :: 0 <= j < |cols| && 0 <= i < |cols[j].cells| && cols[j].cells[i].Text?
  }

  /** After coercion a column holds text exactly when its conversion would have added
      a missing value, so the frame is drawable exactly when every column converts
      cleanly. */
  lemma CoercedHoldsText(cols: seq<Column>, parse: string -> Option<real>)
    ensures HoldsText(CoercedBefore(cols, |cols|, parse))
            <==> exists j :: 0 <= j < |cols| && !ConvertsCleanly(cols[j].cells, parse)
  {
    var coerced := CoercedBefore(cols, |cols|, parse);
    if HoldsText(coerced) {
      var j, i :| 0 <= j < |coerced| && 0 <= i < |coerced[j].cells| && coerced[j].cells[i].Text?;
      assert coerced[j] == CoerceColumn(cols[j], parse);
    }
    if j :| 0 <= j < |cols| && !ConvertsCleanly(cols[j].cells, parse) {
      var i :| 0 <= i < |cols[j].cells| && cols[j].cells[i].Text?
               && !(cols[j].cells[i].s != "" && parse(cols[j].cells[i].s).Some?);
      assert coerced[j] == cols[j];
      assert coerced[j].cells[i].Text?;
    }
  }

  const DummyIndex: seq<Cell> := [Num(0.0), Num(1.0)]
  const DummyColumns: seq<Column> := [Column("value", [Num(1.0), Num(2.0)])]

  /** handler: the first dataset, or with none a dummy frame (index `timestamp` =
      [0, 1], one column `value` = [1, 2]), is coerced in place and plotted. The
      coercion raises TypeError at a repeated column name, and the plot raises when a
      column kept its text. Otherwise the renderer's bytes `image` are saved at
      ImagePath, read back and returned base64 encoded. */
  method Handler(dfs: seq<DataFrame>, parse: string -> Option<real>, image: seq<byte>,
                 files: ImageResponse.Files)
    returns (df: DataFrame, saved: ImageResponse.Files,
             response: Result<ImageResponse.Response, Failure>)
    requires |dfs| > 0 ==> dfs[0].Valid()
    modifies if |dfs| > 0 then {dfs[0]} else {}
    ensures |dfs| > 0 ==> df == dfs[0] && df.index == old(dfs[0].index)
    ensures |dfs| == 0 ==> fresh(df) && df.index == DummyIndex && df.indexName == Some("timestamp")
    ensures df.Valid()
    ensures var cols := if |dfs| > 0 then old(dfs[0].columns) else DummyColumns;
            var failed := FirstRepeated(Names(cols), 0);
            df.columns == CoercedBefore(cols, if failed.Some? then failed.value else |cols|, parse)
    ensures var cols := if |dfs| > 0 then old(dfs[0].columns) else DummyColumns;
            var failed := FirstRepeated(Names(cols), 0);
            && (failed.Some? ==> response == Err(TypeError(failed.value)))
            && (failed.None? ==> (response.Ok? <==> forall j :: 0 <= j < |cols| ==> ConvertsCleanly(cols[j].cells, parse)))
            && (failed.None? && response.Err? ==> response.error == TextNotPlottable)
    ensures response.Err? ==> saved == files
    ensures response.Ok? ==>
              && saved == files[ImagePath := image]
              && response.value.statusCode == 200 && response.value.isBase64Encoded
              && response.value.headers == map["Content-Type" := "image/" + OutputType]
              && Base64.Decode(response.value.body) == Some(image)
  {
    if |dfs| > 0 {
      df := dfs[0];
    } else {
      df := new DataFrame(DummyIndex, Some("timestamp"), DummyColumns);
    }
    ghost var cols := df.columns;
    var failedAt := CoerceNumeric(df, parse);
    if failedAt.Some? {
      return df, files, Err(TypeError(failedAt.value));
    }
    CoercedHoldsText(cols, parse);
    if HoldsText(df.columns) {
      return df, files, Err(TextNotPlottable);
    }
    saved := files[ImagePath := image];
    var returned := ImageResponse.ReturnImg(saved, ImagePath, "image/" + OutputType);
    response := Ok(returned.value);
  }

  // The local runner: reading the dataset files into frames.

  datatype LoadError = EmptyFile | ShapeMismatch | NoTimestampColumn | DuplicateTimestamp | BadTimestamp

  /** Each line of the file, stripped and split at every comma. */
  function Rows(lines: seq<string>): (r: seq<seq<string>>)
    ensures |r| == |lines|
  {
    seq(|lines|, i requires 0 <= i < |lines| => Split(Strip(lines[i]), ','))
  }

  /** The guard `csv == [[]]` never holds: every line splits into at least one field,
      and a file without lines gives no row at all. */
  lemma RowsNeverEmptyRow(lines: seq<string>)
    ensures Rows(lines) != [[]]
  {
    if |lines| == 1 {
      assert |Rows(lines)[0]| >= 1;
    }
  }

  function MaxWidth(rows: seq<seq<string>>): (w: nat)
    ensures forall i :: 0 <= i < |rows| ==> |rows[i]| <= w
    ensures rows != [] ==> exists i :: 0 <= i < |rows| && |rows[i]| == w
  {
    if rows == [] then 0
    else
      var w := MaxWidth(rows[1..]);
      if |rows[0]| >= w then |rows[0]| else w
  }

  /** pd.DataFrame(data=rows, columns=header): column j holds field j of every row, a
      row too short for it giving a missing value. */
  function TableColumns(header: seq<string>, rows: seq<seq<string>>): (r: seq<Column>)
    ensures |r| == |header| && forall j :: 0 <= j < |header| ==> r[j].name == header[j]
  {
    seq(|header|, j requires 0 <= j < |header| =>
      Column(header[j], seq(|rows|, i requires 0 <= i < |rows| =>
        if j < |rows[i]| then Text(rows[i][j]) else Missing)))
  }

  /** pd.to_datetime(..., format='ISO8601') on one index value. */
  function ToTime(c: Cell, parseTime: string -> Option<int>): (r: Option<Cell>)
    ensures r.Some? ==> !r.value.Text?
  {
    match c
    case Text(s) =>
      if s == "" then Some(Missing)
      else (match parseTime(s) case Some(t) => Some(Time(t)) case None => None)
    case _ => Some(Missing)
  }

  function ToTimes(cells: seq<Cell>, parseTime: string -> Option<int>): (r: Option<seq<Cell>>)
    ensures r.Some? ==> |r.value| == |cells|
                        && forall i :: 0 <= i < |cells| ==> ToTime(cells[i], parseTime) == Some(r.value[i])
    ensures r.None? ==> exists i :: 0 <= i < |cells| && ToTime(cells[i], parseTime).None?
  {
    if cells == [] then Some([])
    else match (ToTime(cells[0], parseTime), ToTimes(cells[1..], parseTime))
      case (Some(c), Some(rest)) => Some([c] + rest)
      case (None, _) => None
      case (_, None) => None
  }

  /** A second column with the name follows the first exactly when two columns
      share the name. */
  lemma TwiceAfterFirst(cols: seq<Column>, name: string, t: nat)
    requires Find(cols, name) == Some(t)
    ensures Find(cols[t + 1..], name).Some? <==>
              exists i, j :: 0 <= i < j < |cols| && cols[i].name == name && cols[j].name == name
  {
    FindFirst(cols, name);
    match Find(cols[t + 1..], name)
    case Some(k) =>
      assert cols[t + 1..][k].name == name;
    case None =>
      forall i, j | 0 <= i < j < |cols| && cols[i].name == name
        ensures cols[j].name != name
      {
        if j > t {
          assert cols[t + 1..][j - t - 1] == cols[j];
        }
      }
  }

  /** pd.DataFrame(data=rows, columns=header) followed by set_index('timestamp') and
      pd.to_datetime on the index. A row longer than the header, or rows all shorter
      than it, are a shape error; a header naming `timestamp` twice makes
      set_index fail (the label is not unique); otherwise the column called
      `timestamp` leaves the columns and becomes the index. */
  function BuildFrame(header: seq<string>, rows: seq<seq<string>>, parseTime: string -> Option<int>)
    : (r: Result<(seq<Cell>, seq<Column>), LoadError>)
    ensures r != Err(EmptyFile)
    ensures r.Ok? ==> |r.value.0| == |rows| && forall i :: 0 <= i < |rows| ==> !r.value.0[i].Text?
    ensures r.Ok? ==> Find(TableColumns(header, rows), "timestamp").Some?
    ensures r.Ok? ==> var t := Find(TableColumns(header, rows), "timestamp").value;
                      r.value.1 == TableColumns(header, rows)[..t] + TableColumns(header, rows)[t + 1..]
    ensures r == Err(ShapeMismatch) <==> rows != [] && MaxWidth(rows) != |header|
    ensures r == Err(DuplicateTimestamp) <==>
              !(rows != [] && MaxWidth(rows) != |header|)
              && exists i, j :: 0 <= i < j < |header| && header[i] == "timestamp" && header[j] == "timestamp"
  {
    if rows != [] && MaxWidth(rows) != |header| then Err(ShapeMismatch)
    else
      var cols := TableColumns(header, rows);
      match Find(cols, "timestamp")
      case None => Err(NoTimestampColumn)
      case Some(t) =>
        TwiceAfterFirst(cols, "timestamp", t);
        if Find(cols[t + 1..], "timestamp").Some? then Err(DuplicateTimestamp)
        else match ToTimes(cols[t].cells, parseTime)
        case None => Err(BadTimestamp)
        case Some(index) =>
          assert |cols[t].cells| == |rows|;
          Ok((index, cols[..t] + cols[t + 1..]))
  }

  /** One dataset file (its lines) as a frame: the first row is the header, taken as
      it is; the other rows are the data. A file without lines has no header. */
  function LoadFrame(lines: seq<string>, parseTime: string -> Option<int>)
    : (r: Result<(seq<Cell>, seq<Column>), LoadError>)
    ensures lines == [] <==> r == Err(EmptyFile)
    ensures r.Ok? ==> |r.value.0| == |lines| - 1
  {
    if lines == [] then Err(EmptyFile)
    else BuildFrame(Rows(lines)[0], Rows(lines)[1..], parseTime)
  }

  /** The runner as written: a file is skipped only when `csv == [[]]`. */
  function LoadAllAsWritten(files: seq<seq<string>>, parseTime: string -> Option<int>)
    : Result<seq<(seq<Cell>, seq<Column>)>, LoadError>
  {
    if files == [] then Ok([])
    else if Rows(files[0]) == [[]] then LoadAllAsWritten(files[1..], parseTime)
    else match (LoadFrame(files[0], parseTime), LoadAllAsWritten(files[1..], parseTime))
      case (Err(e), _) => Err(e)
      case (_, Err(e)) => Err(e)
      case (Ok(f), Ok(rest)) => Ok([f] + rest)
  }

  /** An empty dataset file is not skipped by the runner as written: it stops the
      load with the error of `csv[0]` on an empty list. */
  lemma EmptyFileStopsLoad(parseTime: string -> Option<int>)
    ensures LoadAllAsWritten([[]], parseTime) == Err(EmptyFile)
  {
    RowsNeverEmptyRow([]);
  }

  /** The runner with the evident intent of the guard: an empty file is skipped. */
  function LoadAll(files: seq<seq<string>>, parseTime: string -> Option<int>)
    : Result<seq<(seq<Cell>, seq<Column>)>, LoadError>
  {
    if files == [] then Ok([])
    else if files[0] == [] then LoadAll(files[1..], parseTime)
    else match (LoadFrame(files[0], parseTime), LoadAll(files[1..], parseTime))
      case (Err(e), _) => Err(e)
      case (_, Err(e)) => Err(e)
      case (Ok(f), Ok(rest)) => Ok([f] + rest)
  }

  /** Empty files make no difference to the corrected runner, and it never fails with
      EmptyFile. */
  lemma {:induction false} LoadAllSkipsEmpty(files: seq<seq<string>>, parseTime: string -> Option<int>)
    ensures LoadAll(files, parseTime) != Err(EmptyFile)
    ensures LoadAll(files, parseTime) == LoadAll(NonEmpty(files), parseTime)
  {
    if files != [] {
      LoadAllSkipsEmpty(files[1..], parseTime);
      if files[0] != [] {
        assert NonEmpty(files) == [files[0]] + NonEmpty(files[1..]);
        assert NonEmpty(files)[1..] == NonEmpty(files[1..]);
      }
    }
  }

  function NonEmpty(files: seq<seq<string>>): seq<seq<string>> {
    if files == [] then []
    else if files[0] == [] then NonEmpty(files[1..])
    else [files[0]] + NonEmpty(files[1..])
  }
}
