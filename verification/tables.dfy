/**
 * The record set the data processor returns: named columns of cells over an
 * index. A cell is a number or missing (NaN); the time index is an opaque
 * stamp per row built from that row's time-component cells.
 *
 * This module holds the value-level meaning of the three table steps of the
 * processor (time consolidation, sanitisation, variable selection) and the
 * properties they keep; the processor applies them in place to a Frame.
 */
module Tables {
  import opened Wrappers
  import opened Errors

  /** A table entry; None is NaN. */
  type Cell = Option<real>

  /** The timestamp of one row, standing for pd.to_datetime of the row's
      year, month, day, hour, minute, second (and ms) cells. */
  datatype Stamp = Stamp(parts: seq<Cell>)

  datatype Index = Labels(labels: seq<Cell>) | Times(stamps: seq<Stamp>) {
    function Rows(): nat {
      match this
      case Labels(l) => |l|
      case Times(s) => |s|
    }
  }

  datatype Column = Column(name: string, cells: seq<Cell>)

  datatype Table = Table(columns: seq<Column>, index: Index)

  function Names(cols: seq<Column>): (r: seq<string>)
    ensures |r| == |cols|
    ensures forall k :: 0 <= k < |cols| ==> r[k] == cols[k].name
  {
    seq(|cols|, k requires 0 <= k < |cols| => cols[k].name)
  }

  predicate DistinctNames(cols: seq<Column>) {
    forall i, j :: 0 <= i < j < |cols| ==> cols[i].name != cols[j].name
  }

  /** `df.drop(columns=names)`: the columns whose name is not listed, in order. */
  function Drop(cols: seq<Column>, names: seq<string>): (r: seq<Column>)
    ensures |r| <= |cols|
    ensures forall c :: c in r ==> c in cols && c.name !in names
    ensures forall c :: c in cols && c.name !in names ==> c in r
  {
    if cols == [] then []
    else (if cols[0].name in names then [] else [cols[0]]) + Drop(cols[1..], names)
  }

  // ---------------------------------------------------------------- time

  /** The raw time-component column names that format_time renames. */
  function RawTimeNames(kind: string): seq<string> {
    ["year", "mo", "dy", "hr", "mn", "sc"] + (if kind == "sim" then ["msc"] else [])
  }

  /** The names they are renamed to, in the same order; these are the columns
      combined into the time index. */
  function CanonicalTimeNames(kind: string): seq<string> {
    ["year", "month", "day", "hour", "minute", "second"] + (if kind == "sim" then ["ms"] else [])
  }

  /** The renaming dictionary of format_time applied to one column name. */
  function RenameTimeName(kind: string, name: string): string {
    if name == "mo" then "month"
    else if name == "dy" then "day"
    else if name == "hr" then "hour"
    else if name == "mn" then "minute"
    else if name == "sc" then "second"
    else if kind == "sim" && name == "msc" then "ms"
    else name
  }

  /** The dictionary maps each raw name to the canonical name at its position
      and leaves every other name alone; renaming twice is renaming once. */
  lemma RenameTimeNameIsTheDictionary(kind: string, name: string)
    ensures |RawTimeNames(kind)| == |CanonicalTimeNames(kind)|
    ensures forall k :: 0 <= k < |RawTimeNames(kind)| ==>
      RenameTimeName(kind, RawTimeNames(kind)[k]) == CanonicalTimeNames(kind)[k]
    ensures name !in RawTimeNames(kind) ==> RenameTimeName(kind, name) == name
    ensures RenameTimeName(kind, RenameTimeName(kind, name)) == RenameTimeName(kind, name)
  {
  }

  /** `df.rename(columns=time_cols_dict)` */
  function RenameTimeColumns(cols: seq<Column>, kind: string): (r: seq<Column>)
    ensures |r| == |cols|
    ensures forall k :: 0 <= k < |cols| ==> r[k] == Column(RenameTimeName(kind, cols[k].name), cols[k].cells)
  {
    seq(|cols|, k requires 0 <= k < |cols| => Column(RenameTimeName(kind, cols[k].name), cols[k].cells))
  }

  /** The cells of the first column with this name (none when absent). */
  function CellsNamed(cols: seq<Column>, name: string): seq<Cell> {
    if cols == [] then []
    else if cols[0].name == name then cols[0].cells
    else CellsNamed(cols[1..], name)
  }

  function CellAt(cells: seq<Cell>, i: nat): Cell {
    if i < |cells| then cells[i] else None
  }

  /** pd.to_datetime(df[new_time_cols]): one stamp per row from the canonical
      time columns, in dictionary order. */
  function Stamps(cols: seq<Column>, kind: string, rows: nat): (r: seq<Stamp>)
    ensures |r| == rows
  {
    var wanted := CanonicalTimeNames(kind);
    seq(rows, i requires 0 <= i < rows =>
      Stamp(seq(|wanted|, j requires 0 <= j < |wanted| => CellAt(CellsNamed(cols, wanted[j]), i))))
  }

  /** After renaming, every canonical time column is present. */
  predicate TimeColumnsPresent(cols: seq<Column>, kind: string) {
    forall w :: w in CanonicalTimeNames(kind) ==> w in Names(RenameTimeColumns(cols, kind))
  }

  /** After renaming, some canonical time column occurs twice. */
  predicate TimeColumnsRepeated(cols: seq<Column>, kind: string) {
    exists w :: w in CanonicalTimeNames(kind) && multiset(Names(RenameTimeColumns(cols, kind)))[w] > 1
  }

  /** format_time: rename the raw time columns; if a canonical one is missing
      (KeyError) the table is returned renamed when its index is already a time
      index and the step fails otherwise; else the time columns (and any old
      `time` column) are replaced by a time index. */
  function FormatTimeSpec(t: Table, kind: string): Result<Table, Error> {
    var renamed := RenameTimeColumns(t.columns, kind);
    if !TimeColumnsPresent(t.columns, kind) then
      if t.index.Times? then Ok(Table(renamed, t.index)) else Err(TimesMissing)
    else if TimeColumnsRepeated(t.columns, kind) then Err(DuplicateTimeKeys)
    else
      Ok(Table(Drop(Drop(renamed, ["time"]), CanonicalTimeNames(kind)),
               Times(Stamps(renamed, kind, t.index.Rows()))))
  }

  /** The raw time columns are there: for each dictionary entry, the raw name
      or the name it is renamed to. */
  predicate HasTimeColumns(t: Table, kind: string) {
    forall k :: 0 <= k < |RawTimeNames(kind)| ==>
      RawTimeNames(kind)[k] in Names(t.columns) || CanonicalTimeNames(kind)[k] in Names(t.columns)
  }

  /** Every name the time step consumes. */
  function TimeNames(kind: string): seq<string> {
    RawTimeNames(kind) + CanonicalTimeNames(kind) + ["time"]
  }

  /** Renaming yields the k-th canonical name exactly from the k-th raw name
      or from the canonical name itself. */
  lemma RenamedToCanonical(kind: string, name: string, k: nat)
    requires k < |RawTimeNames(kind)|
    ensures RenameTimeName(kind, name) == CanonicalTimeNames(kind)[k] <==>
      name == RawTimeNames(kind)[k] || name == CanonicalTimeNames(kind)[k]
  {
    if k == 0 {
      assert CanonicalTimeNames(kind)[0] == "year" && RawTimeNames(kind)[0] == "year";
    } else if k == 1 {
      assert CanonicalTimeNames(kind)[1] == "month" && RawTimeNames(kind)[1] == "mo";
    } else if k == 2 {
      assert CanonicalTimeNames(kind)[2] == "day" && RawTimeNames(kind)[2] == "dy";
    } else if k == 3 {
      assert CanonicalTimeNames(kind)[3] == "hour" && RawTimeNames(kind)[3] == "hr";
    } else if k == 4 {
      assert CanonicalTimeNames(kind)[4] == "minute" && RawTimeNames(kind)[4] == "mn";
    } else if k == 5 {
      assert CanonicalTimeNames(kind)[5] == "second" && RawTimeNames(kind)[5] == "sc";
    } else {
      assert CanonicalTimeNames(kind)[6] == "ms" && RawTimeNames(kind)[6] == "msc";
    }
  }

  lemma TimeColumnsPresentIff(t: Table, kind: string)
    ensures TimeColumnsPresent(t.columns, kind) <==> HasTimeColumns(t, kind)
  {
    var raw, canon := RawTimeNames(kind), CanonicalTimeNames(kind);
    var renamed := RenameTimeColumns(t.columns, kind);
    if HasTimeColumns(t, kind) {
      forall w | w in canon ensures w in Names(renamed) {
        var k :| 0 <= k < |canon| && canon[k] == w;
        assert raw[k] in Names(t.columns) || canon[k] in Names(t.columns);
        var i :| 0 <= i < |t.columns| && (t.columns[i].name == raw[k] || t.columns[i].name == canon[k]);
        RenamedToCanonical(kind, t.columns[i].name, k);
        assert renamed[i].name == w;
      }
    }
    if TimeColumnsPresent(t.columns, kind) {
      forall k | 0 <= k < |raw| ensures raw[k] in Names(t.columns) || canon[k] in Names(t.columns) {
        assert canon[k] in canon;
        var i :| 0 <= i < |renamed| && renamed[i].name == canon[k];
        RenamedToCanonical(kind, t.columns[i].name, k);
        assert t.columns[i].name in Names(t.columns);
      }
    }
  }

  /** A name is consumed by the time step exactly when its renamed form is. */
  lemma RenamedTimeName(kind: string, name: string)
    ensures name in TimeNames(kind) <==>
      RenameTimeName(kind, name) == "time" || RenameTimeName(kind, name) in CanonicalTimeNames(kind)
    ensures name !in TimeNames(kind) ==> RenameTimeName(kind, name) == name
  {
    var canon := CanonicalTimeNames(kind);
    var rn := RenameTimeName(kind, name);
    if rn in canon {
      var k :| 0 <= k < |canon| && canon[k] == rn;
      RenamedToCanonical(kind, name, k);
      assert RawTimeNames(kind)[k] in RawTimeNames(kind) && canon[k] in canon;
    }
    if name in TimeNames(kind) && name != "time" {
      if name in RawTimeNames(kind) {
        var k :| 0 <= k < |RawTimeNames(kind)| && RawTimeNames(kind)[k] == name;
        RenamedToCanonical(kind, name, k);
        assert canon[k] in canon;
      } else {
        var k :| 0 <= k < |canon| && canon[k] == name;
        RenamedToCanonical(kind, name, k);
      }
    }
  }

  lemma {:induction false} DropAppend(a: seq<Column>, b: seq<Column>, names: seq<string>)
    ensures Drop(a + b, names) == Drop(a, names) + Drop(b, names)
  {
    if a != [] {
      assert (a + b)[1..] == a[1..] + b;
      DropAppend(a[1..], b, names);
    } else {
      assert a + b == b;
    }
  }

  /** Renaming then dropping the canonical and `time` columns drops one
      column exactly when dropping the time names drops it. */
  lemma DropOneRenamed(c: Column, kind: string)
    ensures Drop(Drop([Column(RenameTimeName(kind, c.name), c.cells)], ["time"]), CanonicalTimeNames(kind))
         == Drop([c], TimeNames(kind))
  {
    RenamedTimeName(kind, c.name);
    var rc := Column(RenameTimeName(kind, c.name), c.cells);
    assert [rc][1..] == [] && [c][1..] == [];
    if c.name in TimeNames(kind) {
      assert Drop([c], TimeNames(kind)) == [];
    } else {
      assert rc == c;
      assert Drop([c], TimeNames(kind)) == [c];
      assert c.name != "time" && c.name !in CanonicalTimeNames(kind);
      assert Drop([rc], ["time"]) == [rc];
    }
  }

  lemma RenameCons(cols: seq<Column>, kind: string)
    requires cols != []
    ensures RenameTimeColumns(cols, kind)
         == [Column(RenameTimeName(kind, cols[0].name), cols[0].cells)] + RenameTimeColumns(cols[1..], kind)
  {
  }

  /** Renaming leaves a column alone unless its name is a raw time name. */
  lemma {:induction false} DropRenamed(cols: seq<Column>, kind: string)
    ensures Drop(Drop(RenameTimeColumns(cols, kind), ["time"]), CanonicalTimeNames(kind))
         == Drop(cols, TimeNames(kind))
  {
    if cols != [] {
      var c, rest := cols[0], cols[1..];
      var canon, tn := CanonicalTimeNames(kind), TimeNames(kind);
      var rc := Column(RenameTimeName(kind, c.name), c.cells);
      var rr := RenameTimeColumns(rest, kind);
      RenameCons(cols, kind);
      calc {
        Drop(Drop(RenameTimeColumns(cols, kind), ["time"]), canon);
        Drop(Drop([rc] + rr, ["time"]), canon);
        { DropAppend([rc], rr, ["time"]); }
        Drop(Drop([rc], ["time"]) + Drop(rr, ["time"]), canon);
        { DropAppend(Drop([rc], ["time"]), Drop(rr, ["time"]), canon); }
        Drop(Drop([rc], ["time"]), canon) + Drop(Drop(rr, ["time"]), canon);
        { DropOneRenamed(c, kind); DropRenamed(rest, kind); }
        Drop([c], tn) + Drop(rest, tn);
        { DropAppend([c], rest, tn); assert [c] + rest == cols; }
        Drop(cols, tn);
      }
    }
  }

  /** With the raw time columns present once each, format_time succeeds: the
      index becomes the stamps of the time columns, and the columns are exactly
      the original non-time columns, in their original order. */
  lemma FormatTimeConsolidates(t: Table, kind: string)
    requires HasTimeColumns(t, kind)
    requires !TimeColumnsRepeated(t.columns, kind)
    ensures FormatTimeSpec(t, kind).Ok?
    ensures FormatTimeSpec(t, kind).value.columns == Drop(t.columns, TimeNames(kind))
    ensures FormatTimeSpec(t, kind).value.index
         == Times(Stamps(RenameTimeColumns(t.columns, kind), kind, t.index.Rows()))
    ensures forall c :: c in FormatTimeSpec(t, kind).value.columns ==> c.name !in TimeNames(kind)
  {
    TimeColumnsPresentIff(t, kind);
    DropRenamed(t.columns, kind);
  }

  /** format_time fails with "Times are missing." exactly when a raw time
      column is absent and the index is not a time index, and with the
      duplicate-keys error exactly when present time columns repeat. */
  lemma FormatTimeFailures(t: Table, kind: string)
    ensures FormatTimeSpec(t, kind) == Err(TimesMissing) <==> !HasTimeColumns(t, kind) && !t.index.Times?
    ensures FormatTimeSpec(t, kind) == Err(DuplicateTimeKeys) <==>
      HasTimeColumns(t, kind) && TimeColumnsRepeated(t.columns, kind)
    ensures FormatTimeSpec(t, kind).Ok? && !HasTimeColumns(t, kind) ==>
      FormatTimeSpec(t, kind) == Ok(Table(RenameTimeColumns(t.columns, kind), t.index))
  {
    TimeColumnsPresentIff(t, kind);
  }

  lemma RenameIdempotent(cols: seq<Column>, kind: string)
    ensures RenameTimeColumns(RenameTimeColumns(cols, kind), kind) == RenameTimeColumns(cols, kind)
  {
    forall n: string ensures RenameTimeName(kind, RenameTimeName(kind, n)) == RenameTimeName(kind, n) {
      RenameTimeNameIsTheDictionary(kind, n);
    }
  }

  /** Consolidation runs once: format_time on its own result returns that
      result unchanged. */
  lemma FormatTimeIdempotent(t: Table, kind: string)
    requires FormatTimeSpec(t, kind).Ok?
    ensures FormatTimeSpec(FormatTimeSpec(t, kind).value, kind) == FormatTimeSpec(t, kind)
  {
    var r := FormatTimeSpec(t, kind).value;
    RenameIdempotent(t.columns, kind);
    TimeColumnsPresentIff(t, kind);
    if TimeColumnsPresent(t.columns, kind) {
      FormatTimeConsolidates(t, kind);
      assert "year" in CanonicalTimeNames(kind);
      assert RenameTimeColumns(r.columns, kind) == r.columns by {
        forall k | 0 <= k < |r.columns| ensures RenameTimeName(kind, r.columns[k].name) == r.columns[k].name {
          assert r.columns[k] in r.columns;
          RenameTimeNameIsTheDictionary(kind, r.columns[k].name);
        }
      }
      assert "year" !in Names(r.columns);
      assert !TimeColumnsPresent(r.columns, kind);
    }
  }

  // ---------------------------------------------------------- sanitising

  /** The four magnitude columns whose negative entries become NaN. */
  const Magnitudes: seq<string> := ["Rho", "V_tot", "Temperature", "B_tot"]

  predicate IsNegative(c: Cell) {
    c.Some? && c.value < 0.0
  }

  /** `col[col < 0] = np.nan` */
  function SanitizeCells(cells: seq<Cell>): (r: seq<Cell>)
    ensures |r| == |cells|
  {
    seq(|cells|, i requires 0 <= i < |cells| => if IsNegative(cells[i]) then None else cells[i])
  }

  /** np.sum(col < 0) */
  function NegativeCount(cells: seq<Cell>): nat {
    if cells == [] then 0
    else NegativeCount(cells[..|cells| - 1]) + (if IsNegative(cells[|cells| - 1]) then 1 else 0)
  }

  function NegativePositions(cells: seq<Cell>): set<nat> {
    set i: nat | i < |cells| && IsNegative(cells[i])
  }

  /** Sanitising leaves no negative entry, turns exactly the negative entries
      into NaN, keeps every other entry, and the count reported is the number
      of entries it changed. */
  lemma {:induction false} SanitizeCellsMeaning(cells: seq<Cell>)
    ensures forall i :: 0 <= i < |cells| ==> !IsNegative(SanitizeCells(cells)[i])
    ensures forall i :: 0 <= i < |cells| && !IsNegative(cells[i]) ==> SanitizeCells(cells)[i] == cells[i]
    ensures forall i :: 0 <= i < |cells| && IsNegative(cells[i]) ==> SanitizeCells(cells)[i] == None
    ensures NegativeCount(cells) == |NegativePositions(cells)|
  {
    if cells != [] {
      var front := cells[..|cells| - 1];
      SanitizeCellsMeaning(front);
      var last := |cells| - 1;
      assert NegativePositions(front) == NegativePositions(cells) - {last};
      if IsNegative(cells[last]) {
        assert NegativePositions(cells) == NegativePositions(front) + {last};
      } else {
        assert NegativePositions(cells) == NegativePositions(front);
      }
    }
  }

  /** Sanitise every column with this name. */
  function SanitizeColumn(cols: seq<Column>, name: string): (r: seq<Column>)
    ensures |r| == |cols|
  {
    seq(|cols|, k requires 0 <= k < |cols| =>
      if cols[k].name == name then Column(name, SanitizeCells(cols[k].cells)) else cols[k])
  }

  /** The state after the loop over vars has sanitised each of them in turn. */
  function SanitizeNames(cols: seq<Column>, vars: seq<string>): (r: seq<Column>)
    ensures |r| == |cols|
  {
    if vars == [] then cols
    else SanitizeColumn(SanitizeNames(cols, vars[..|vars| - 1]), vars[|vars| - 1])
  }

  /** The count reported for a name: negatives over the columns with that name. */
  function NegativeCountNamed(cols: seq<Column>, name: string): nat {
    if cols == [] then 0
    else (if cols[0].name == name then NegativeCount(cols[0].cells) else 0) + NegativeCountNamed(cols[1..], name)
  }

  /** After sanitising vars, a column is sanitised when its name is one of them
      and untouched otherwise; names and order do not change. */
  lemma {:induction false} SanitizeNamesMeaning(cols: seq<Column>, vars: seq<string>)
    ensures forall k :: 0 <= k < |cols| ==>
      SanitizeNames(cols, vars)[k] ==
        if cols[k].name in vars then Column(cols[k].name, SanitizeCells(cols[k].cells)) else cols[k]
  {
    if vars != [] {
      var front := vars[..|vars| - 1];
      SanitizeNamesMeaning(cols, front);
      forall k | 0 <= k < |cols|
        ensures SanitizeNames(cols, vars)[k] ==
          if cols[k].name in vars then Column(cols[k].name, SanitizeCells(cols[k].cells)) else cols[k]
      {
        var c := cols[k];
        if c.name in front {
          SanitizeTwice(c.cells);
        }
        assert c.name in vars <==> c.name in front || c.name == vars[|vars| - 1];
      }
    }
  }

  lemma SanitizeTwice(cells: seq<Cell>)
    ensures SanitizeCells(SanitizeCells(cells)) == SanitizeCells(cells)
  {
  }

  /** Sanitising other names does not change the count reported for this one. */
  lemma {:induction false} CountUnaffected(cols: seq<Column>, vars: seq<string>, name: string)
    requires name !in vars
    ensures NegativeCountNamed(SanitizeNames(cols, vars), name) == NegativeCountNamed(cols, name)
  {
    SanitizeNamesMeaning(cols, vars);
    CountPointwise(cols, SanitizeNames(cols, vars), name);
  }

  lemma {:induction false} CountPointwise(a: seq<Column>, b: seq<Column>, name: string)
    requires |a| == |b|
    requires forall k :: 0 <= k < |a| ==> a[k].name == b[k].name
    requires forall k :: 0 <= k < |a| && a[k].name == name ==> a[k] == b[k]
    ensures NegativeCountNamed(a, name) == NegativeCountNamed(b, name)
  {
    if a != [] {
      CountPointwise(a[1..], b[1..], name);
    }
  }

  /** The first of vars that names no column, if any. */
  function FirstMissing(cols: seq<Column>, vars: seq<string>): (r: Option<string>)
    ensures r.None? <==> forall v :: v in vars ==> v in Names(cols)
    ensures r.Some? ==> r.value in vars && r.value !in Names(cols)
  {
    if vars == [] then None
    else if vars[0] !in Names(cols) then Some(vars[0])
    else FirstMissing(cols, vars[1..])
  }

  /** process_data without the derived physical fields: for simulated data the
      `it` column is dropped, then each magnitude column is sanitised in turn
      (KeyError on the first one missing); the result carries the count
      reported for each magnitude. */
  function ProcessSpec(t: Table, kind: string): Result<(Table, seq<nat>), Error> {
    var cols := if kind == "sim" then Drop(t.columns, ["it"]) else t.columns;
    match FirstMissing(cols, Magnitudes)
    case Some(v) => Err(MissingColumn(v))
    case None =>
      Ok((Table(SanitizeNames(cols, Magnitudes), t.index), CountsOf(cols, Magnitudes)))
  }

  /** The count reported for each of names, in order. */
  function CountsOf(cols: seq<Column>, names: seq<string>): (r: seq<nat>)
    ensures |r| == |names|
  {
    seq(|names|, k requires 0 <= k < |names| => NegativeCountNamed(cols, names[k]))
  }

  /** After process_data every column keeps its name and position, other
      columns (bar a dropped `it`) are unchanged, and in a magnitude column no
      entry is negative: negatives became NaN and every other entry is kept. */
  lemma ProcessSanitises(t: Table, kind: string)
    requires ProcessSpec(t, kind).Ok?
    ensures var cols := if kind == "sim" then Drop(t.columns, ["it"]) else t.columns;
      var r := ProcessSpec(t, kind).value.0;
      && r.index == t.index
      && Names(r.columns) == Names(cols)
      && (forall k :: 0 <= k < |cols| && cols[k].name !in Magnitudes ==> r.columns[k] == cols[k])
      && (forall k :: 0 <= k < |cols| && cols[k].name in Magnitudes ==>
            && |r.columns[k].cells| == |cols[k].cells|
            && (forall i :: 0 <= i < |cols[k].cells| ==>
                  && !IsNegative(r.columns[k].cells[i])
                  && r.columns[k].cells[i] == (if IsNegative(cols[k].cells[i]) then None else cols[k].cells[i])))
    ensures kind == "sim" ==> "it" !in Names(ProcessSpec(t, kind).value.0.columns)
  {
    var cols := if kind == "sim" then Drop(t.columns, ["it"]) else t.columns;
    var r := ProcessSpec(t, kind).value.0;
    SanitizeNamesMeaning(cols, Magnitudes);
    forall k | 0 <= k < |cols| && cols[k].name in Magnitudes
      ensures |r.columns[k].cells| == |cols[k].cells|
      ensures forall i :: 0 <= i < |cols[k].cells| ==>
                  && !IsNegative(r.columns[k].cells[i])
                  && r.columns[k].cells[i] == (if IsNegative(cols[k].cells[i]) then None else cols[k].cells[i])
    {
      SanitizeCellsMeaning(cols[k].cells);
    }
    if kind == "sim" {
      assert forall c :: c in cols ==> c.name != "it";
    }
  }

  /** The count process_data reports for a magnitude column is the number of
      its negative entries (column names being distinct). */
  lemma ProcessCounts(t: Table, kind: string, k: nat)
    requires ProcessSpec(t, kind).Ok?
    requires DistinctNames(t.columns)
    requires k < |Magnitudes|
    ensures |ProcessSpec(t, kind).value.1| == |Magnitudes|
    ensures ProcessSpec(t, kind).value.1[k] == |NegativePositions(CellsNamed(t.columns, Magnitudes[k]))|
  {
    var name := Magnitudes[k];
    var cols := if kind == "sim" then Drop(t.columns, ["it"]) else t.columns;
    assert name in Names(cols) by {
      assert FirstMissing(cols, Magnitudes).None?;
      assert name in Magnitudes;
    }
    assert name in Names(t.columns) by {
      var i :| 0 <= i < |cols| && cols[i].name == name;
      assert cols[i] in t.columns;
    }
    UniqueCount(t.columns, name);
    SanitizeCellsMeaning(CellsNamed(t.columns, name));
    if kind == "sim" {
      DropKeepsCount(t.columns, ["it"], name);
    }
  }

  lemma {:induction false} UniqueCount(cols: seq<Column>, name: string)
    requires DistinctNames(cols)
    requires name in Names(cols)
    ensures NegativeCountNamed(cols, name) == NegativeCount(CellsNamed(cols, name))
  {
    if cols[0].name == name {
      assert forall c :: c in cols[1..] ==> c.name != name;
      NoneNamed(cols[1..], name);
    } else {
      assert name in Names(cols[1..]) by {
        var i :| 0 <= i < |cols| && cols[i].name == name;
        assert cols[1..][i - 1].name == name;
      }
      UniqueCount(cols[1..], name);
    }
  }

  lemma {:induction false} NoneNamed(cols: seq<Column>, name: string)
    requires forall c :: c in cols ==> c.name != name
    ensures NegativeCountNamed(cols, name) == 0
  {
    if cols != [] {
      NoneNamed(cols[1..], name);
    }
  }

  lemma {:induction false} DropKeepsCount(cols: seq<Column>, names: seq<string>, name: string)
    requires name !in names
    ensures NegativeCountNamed(Drop(cols, names), name) == NegativeCountNamed(cols, name)
  {
    if cols != [] {
      DropKeepsCount(cols[1..], names, name);
      var d := Drop(cols, names);
      if cols[0].name !in names {
        assert d == [cols[0]] + Drop(cols[1..], names);
        assert d[1..] == Drop(cols[1..], names);
      } else {
        assert d == Drop(cols[1..], names);
        assert cols[0].name != name;
      }
    }
  }

  // ------------------------------------------------------------ selection

  /** `data[vars]` as requested by __call__: every column (`All`) or the named
      ones. */
  datatype Vars = All | Only(names: seq<string>)

  /** The columns with this name, in order. */
  function ColumnsNamed(cols: seq<Column>, name: string): (r: seq<Column>)
    ensures forall c :: c in r ==> c in cols && c.name == name
  {
    if cols == [] then []
    else (if cols[0].name == name then [cols[0]] else []) + ColumnsNamed(cols[1..], name)
  }

  function Gather(cols: seq<Column>, vars: seq<string>): (r: seq<Column>)
    ensures forall c :: c in r ==> c in cols && c.name in vars
  {
    if vars == [] then [] else ColumnsNamed(cols, vars[0]) + Gather(cols, vars[1..])
  }

  /** The requested names that are not columns (the KeyError's list). */
  function Absent(cols: seq<Column>, vars: seq<string>): (r: seq<string>)
    ensures forall v :: v in r <==> v in vars && v !in Names(cols)
  {
    if vars == [] then []
    else (if vars[0] in Names(cols) then [] else [vars[0]]) + Absent(cols, vars[1..])
  }

  function Select(t: Table, vars: Vars): Result<Table, Error> {
    match vars
    case All => Ok(t)
    case Only(names) =>
      var missing := Absent(t.columns, names);
      if missing != [] then Err(MissingColumns(missing))
      else Ok(Table(Gather(t.columns, names), t.index))
  }

  lemma {:induction false} UniqueColumnNamed(cols: seq<Column>, name: string)
    requires DistinctNames(cols)
    requires name in Names(cols)
    ensures |ColumnsNamed(cols, name)| == 1 && ColumnsNamed(cols, name)[0].name == name
  {
    if cols[0].name == name {
      assert forall c :: c in cols[1..] ==> c.name != name;
      NothingNamed(cols[1..], name);
    } else {
      assert name in Names(cols[1..]) by {
        var i :| 0 <= i < |cols| && cols[i].name == name;
        assert cols[1..][i - 1].name == name;
      }
      UniqueColumnNamed(cols[1..], name);
    }
  }

  lemma {:induction false} NothingNamed(cols: seq<Column>, name: string)
    requires forall c :: c in cols ==> c.name != name
    ensures ColumnsNamed(cols, name) == []
  {
    if cols != [] {
      NothingNamed(cols[1..], name);
    }
  }

  lemma {:induction false} GatherNames(cols: seq<Column>, vars: seq<string>)
    requires DistinctNames(cols)
    requires forall v :: v in vars ==> v in Names(cols)
    ensures Names(Gather(cols, vars)) == vars
  {
    if vars != [] {
      UniqueColumnNamed(cols, vars[0]);
      GatherNames(cols, vars[1..]);
      assert Gather(cols, vars) == ColumnsNamed(cols, vars[0]) + Gather(cols, vars[1..]);
    }
  }

  /** Selecting names fails exactly when one of them is not a column; otherwise
      (column names being distinct) the result has exactly the requested
      columns, in the requested order, each taken unchanged from the table,
      over the same index. `All` returns the table whole. */
  lemma SelectExact(t: Table, vars: Vars)
    requires DistinctNames(t.columns)
    ensures vars.All? ==> Select(t, vars) == Ok(t)
    ensures vars.Only? ==> (Select(t, vars).Err? <==> exists v :: v in vars.names && v !in Names(t.columns))
    ensures vars.Only? && Select(t, vars).Ok? ==>
      var r := Select(t, vars).value;
      && Names(r.columns) == vars.names
      && r.index == t.index
      && (forall c :: c in r.columns ==> c in t.columns)
  {
    if vars.Only? {
      var missing := Absent(t.columns, vars.names);
      if missing == [] {
        GatherNames(t.columns, vars.names);
      } else {
        assert missing[0] in missing;
      }
    }
  }

  /** A Frame is a table object that the processor changes in place. */
  class Frame {
    var columns: seq<Column>
    var index: Index

    constructor (t: Table)
      ensures Value() == t
    {
      columns := t.columns;
      index := t.index;
    }

    function Value(): Table
      reads this
    {
      Table(columns, index)
    }

    /** `df.copy()` */
    method Copy() returns (f: Frame)
      ensures fresh(f) && f.Value() == Value()
    {
      f := new Frame(Value());
    }
  }
}
