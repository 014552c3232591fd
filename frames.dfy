/** The slice of the data-frame library the scripts use: a frame is an index plus a
    sequence of named columns of cells, updated in place by the scripts. */
module Frames {
  import opened Common

  /** One value of a frame: text, a number, a point in time (in microseconds), or a
      missing value (the library's NaN, None and NaT). */
  datatype Cell = Text(s: string) | Num(x: real) | Time(t: int) | Missing

  datatype Column = Column(name: string, cells: seq<Cell>)

  /** pandas.to_numeric(..., errors='coerce') on one value. `parse` stands for the
      library's parser of a non-empty string; it answers None for text that is not a
      number (and for the text "nan", which parses to a missing value). The empty
      string and unparseable text become missing; numbers stay; a time becomes its
      count of time units. */
  function ToNumeric(c: Cell, parse: string -> Option<real>): (r: Cell)
    ensures r.Num? || r.Missing?
    ensures r.Missing? <==> c.Missing? || (c.Text? && (c.s == "" || parse(c.s).None?))
  {
    match c
    case Text(s) =>
      if s == "" then Missing
      else (match parse(s) case Some(v) => Num(v) case None => Missing)
    case Num(_) => c
    case Time(t) => Num(t as real)
    case Missing => Missing
  }

  function ToNumericAll(cells: seq<Cell>, parse: string -> Option<real>): (r: seq<Cell>)
    ensures |r| == |cells|
    ensures forall i :: 0 <= i < |cells| ==> r[i] == ToNumeric(cells[i], parse)
  {
    seq(|cells|, i requires 0 <= i < |cells| => ToNumeric(cells[i], parse))
  }

  /** Series.isna().sum(). */
  function CountMissing(cells: seq<Cell>): (n: nat)
    ensures n <= |cells|
  {
    if cells == [] then 0
    else CountMissing(cells[..|cells| - 1]) + (if cells[|cells| - 1].Missing? then 1 else 0)
  }

  /** No value is missing exactly when the count of missing values is zero. */
  lemma {:induction false} NoneMissing(cells: seq<Cell>)
    ensures CountMissing(cells) == 0 <==> forall i :: 0 <= i < |cells| ==> !cells[i].Missing?
  {
    if cells != [] {
      var init := cells[..|cells| - 1];
      NoneMissing(init);
      assert forall i :: 0 <= i < |init| ==> init[i] == cells[i];
    }
  }

  predicate DistinctNames(cols: seq<Column>) {
    forall i, j :: 0 <= i < j < |cols| ==> cols[i].name != cols[j].name
  }

  function Names(cols: seq<Column>): (names: seq<string>)
    ensures |names| == |cols| && forall j :: 0 <= j < |cols| ==> names[j] == cols[j].name
  {
    seq(|cols|, j requires 0 <= j < |cols| => cols[j].name)
  }

  /** No other column has the same name. `df[column]` on a repeated name is a
      frame rather than a series. */
  predicate UniqueName(names: seq<string>, j: int)
    requires 0 <= j < |names|
  {
    forall i :: 0 <= i < |names| && i != j ==> names[i] != names[j]
  }

  /** The position of the column called `name`, if there is one. */
  function Find(cols: seq<Column>, name: string): (r: Option<nat>)
    ensures r.Some? ==> r.value < |cols| && cols[r.value].name == name
    ensures r.None? <==> forall j :: 0 <= j < |cols| ==> cols[j].name != name
  {
    if cols == [] then None
    else if cols[0].name == name then Some(0)
    else match Find(cols[1..], name)
      case Some(j) => Some(j + 1)
      case None => None
  }

  /** The columns after `df[name] = cells`: the column called `name` is replaced
      where it stands, or a new one is appended at the end; either way `name` then
      finds these cells, and every other column keeps its name and cells. */
  function Assigned(cols: seq<Column>, name: string, cells: seq<Cell>): (r: seq<Column>)
    ensures Find(cols, name).Some? ==> |r| == |cols|
    ensures Find(cols, name).None? ==> |r| == |cols| + 1
    ensures Find(r, name).Some? && r[Find(r, name).value] == Column(name, cells)
    ensures forall j :: 0 <= j < |cols| && cols[j].name != name ==> r[j] == cols[j]
  {
    match Find(cols, name)
    case Some(j) =>
      FindFirst(cols, name);
      FindFirstUnique(cols[j := Column(name, cells)], name, j);
      cols[j := Column(name, cells)]
    case None =>
      FindFirstUnique(cols + [Column(name, cells)], name, |cols|);
      cols + [Column(name, cells)]
  }

  /** Find answers the first column with the name. */
  lemma {:induction false} FindFirst(cols: seq<Column>, name: string)
    requires Find(cols, name).Some?
    ensures forall j :: 0 <= j < Find(cols, name).value ==> cols[j].name != name
  {
    if cols[0].name != name {
      FindFirst(cols[1..], name);
    }
  }

  /** A column with the name and none before it is the one Find answers. */
  lemma {:induction false} FindFirstUnique(cols: seq<Column>, name: string, k: nat)
    requires k < |cols| && cols[k].name == name
    requires forall j :: 0 <= j < k ==> cols[j].name != name
    ensures Find(cols, name) == Some(k)
  {
    if k > 0 {
      FindFirstUnique(cols[1..], name, k - 1);
    }
  }

  /** Assigning a column twice leaves only the second assignment. */
  lemma AssignedAgain(cols: seq<Column>, name: string, first: seq<Cell>, second: seq<Cell>)
    ensures Assigned(Assigned(cols, name, first), name, second) == Assigned(cols, name, second)
  {
    match Find(cols, name)
    case Some(j) =>
      FindFirst(cols, name);
      FindFirstUnique(cols[j := Column(name, first)], name, j);
    case None =>
      FindFirstUnique(cols + [Column(name, first)], name, |cols|);
      assert (cols + [Column(name, first)])[|cols| := Column(name, second)] == cols + [Column(name, second)];
  }

  /** A data frame, changed in place by the scripts. */
  class DataFrame {
    var index: seq<Cell>
    /** `df.index.name`; None for an unnamed index. */
    var indexName: Option<string>
    var columns: seq<Column>

    /** Every column has one cell per index entry. */
    ghost predicate Valid()
      reads this
    {
      forall j :: 0 <= j < |columns| ==> |columns[j].cells| == |index|
    }

    constructor (index: seq<Cell>, indexName: Option<string>, columns: seq<Column>)
      ensures this.index == index && this.indexName == indexName && this.columns == columns
    {
      this.index := index;
      this.indexName := indexName;
      this.columns := columns;
    }

    /** `df[name] = cells`: replaces the column called `name` where it stands, or
        appends a new column at the end. */
    method Assign(name: string, cells: seq<Cell>)
      requires Valid() && |cells| == |index|
      modifies this
      ensures Valid() && index == old(index) && indexName == old(indexName)
      ensures match Find(old(columns), name)
              case Some(j) => columns == old(columns)[j := Column(name, cells)]
              case None => columns == old(columns) + [Column(name, cells)]
      ensures columns == Assigned(old(columns), name, cells)
    {
      match Find(columns, name)
      case Some(j) => columns := columns[j := Column(name, cells)];
      case None => columns := columns + [Column(name, cells)];
    }
  }
}
