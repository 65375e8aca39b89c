/** A small immutable stand-in for the data frames the dashboard builds:
    a row count plus an ordered list of named columns whose cells are either
    a number or NaN (pandas' missing-value marker). Column assignment and
    dropping by name are the two mutating frame operations the dashboard
    script uses; here each returns a new frame. */
module Frames {
  import opened SeqUtil

  /** One cell of a frame: a number, or NaN for a missing value. */
  datatype Cell = Num(v: real) | NaN

  datatype Column = Column(name: string, cells: seq<Cell>)

  /** `rows` is the length of the date index; `cols` keeps insertion order. */
  datatype Frame = Frame(rows: nat, cols: seq<Column>)

  /** Every column has one cell per row. */
  predicate WellFormed(f: Frame)
  {
    forall c :: c in f.cols ==> |c.cells| == f.rows
  }

  /** pandas' `DataFrame.empty`: no rows or no columns. */
  predicate IsEmpty(f: Frame)
  {
    f.rows == 0 || |f.cols| == 0
  }

  /** A well-formed frame is empty exactly when no column holds a cell. */
  lemma EmptyHoldsNoCell(f: Frame)
    requires WellFormed(f)
    ensures IsEmpty(f) <==> forall i :: 0 <= i < |f.cols| ==> |f.cols[i].cells| == 0
  {
    if !IsEmpty(f) {
      assert f.cols[0] in f.cols;
    }
  }

  /** Column labels, in column order. */
  function Names(f: Frame): (r: seq<string>)
    ensures |r| == |f.cols|
    ensures forall i :: 0 <= i < |f.cols| ==> r[i] == f.cols[i].name
  {
    seq(|f.cols|, i requires 0 <= i < |f.cols| => f.cols[i].name)
  }

  /** The cells of row `t`, one per column, in column order. */
  function Row(f: Frame, t: nat): (r: seq<Cell>)
    requires WellFormed(f) && t < f.rows
    ensures |r| == |f.cols|
    ensures forall i :: 0 <= i < |f.cols| ==> r[i] == f.cols[i].cells[t]
  {
    seq(|f.cols|, i requires 0 <= i < |f.cols| => f.cols[i].cells[t])
  }

  /** Cells of the first column labelled `name`, or [] when there is none. */
  function Lookup(cols: seq<Column>, name: string): (r: seq<Cell>)
    ensures (exists i :: 0 <= i < |cols| && cols[i].name == name) ==>
              exists i :: 0 <= i < |cols| && cols[i].name == name && r == cols[i].cells
    ensures (forall i :: 0 <= i < |cols| ==> cols[i].name != name) ==> r == []
  {
    if |cols| == 0 then []
    else if cols[0].name == name then cols[0].cells
    else
      var r := Lookup(cols[1..], name);
      assert forall i :: 1 <= i < |cols| ==> cols[i] == cols[1..][i - 1];
      r
  }

  /** In a frame whose labels are distinct, looking a label up finds its column. */
  lemma {:induction false} LookupDistinct(cols: seq<Column>, k: nat)
    requires k < |cols|
    requires forall i, j :: 0 <= i < j < |cols| ==> cols[i].name != cols[j].name
    ensures Lookup(cols, cols[k].name) == cols[k].cells
  {
    if k > 0 {
      LookupDistinct(cols[1..], k - 1);
    }
  }

  /** `df[name] = cells`: overwrite every column labelled `name`, or append
      a new column at the end when the label is new. */
  function Assign(f: Frame, name: string, cells: seq<Cell>): (r: Frame)
    requires |cells| == f.rows
    ensures r.rows == f.rows
    ensures WellFormed(f) ==> WellFormed(r)
    ensures name in Names(f) ==> Names(r) == Names(f)
    ensures name !in Names(f) ==> Names(r) == Names(f) + [name]
    ensures name !in Names(f) ==> r.cols == f.cols + [Column(name, cells)]
    ensures Lookup(r.cols, name) == cells
    ensures forall i :: 0 <= i < |f.cols| && f.cols[i].name != name ==> r.cols[i] == f.cols[i]
  {
    if name in Names(f) then
      var cols := seq(|f.cols|, i requires 0 <= i < |f.cols| =>
                        if f.cols[i].name == name then Column(name, cells) else f.cols[i]);
      Frame(f.rows, cols)
    else
      var cols := f.cols + [Column(name, cells)];
      assert forall i :: 0 <= i < |f.cols| ==> cols[i].name != name;
      assert cols[|f.cols|].name == name;
      Frame(f.rows, cols)
  }

  /** `df.drop(columns=names)`: the columns whose label is not in `names`. */
  function Drop(f: Frame, names: seq<string>): (r: Frame)
    ensures r.rows == f.rows
    ensures WellFormed(f) ==> WellFormed(r)
    ensures forall c :: c in r.cols <==> c in f.cols && c.name !in names
    ensures IsSubsequence(r.cols, f.cols)
  {
    FilterIsSubsequence(f.cols, (c: Column) => c.name !in names);
    Frame(f.rows, Filter(f.cols, (c: Column) => c.name !in names))
  }

  /** Dropping labels no column carries leaves the frame as it is. */
  lemma DropNothing(f: Frame, names: seq<string>)
    requires forall i :: 0 <= i < |f.cols| ==> f.cols[i].name !in names
    ensures Drop(f, names) == f
  {
    FilterAll(f.cols, (c: Column) => c.name !in names);
  }

  /** A column appended under a dropped label disappears again on the drop. */
  lemma DropAssigned(f: Frame, name: string, cells: seq<Cell>, names: seq<string>)
    requires |cells| == f.rows
    requires name !in Names(f) && name in names
    ensures Drop(Assign(f, name, cells), names) == Drop(f, names)
  {
    var p := (c: Column) => c.name !in names;
    FilterAppend(f.cols, [Column(name, cells)], p);
    FilterNone([Column(name, cells)], p);
  }

  /** Looking a label up only depends on the columns carrying that label. */
  lemma {:induction false} LookupSameLabel(a: seq<Column>, b: seq<Column>, name: string)
    requires |a| == |b|
    requires forall i :: 0 <= i < |a| ==> (a[i].name == name <==> b[i].name == name)
    requires forall i :: 0 <= i < |a| && a[i].name == name ==> a[i] == b[i]
    ensures Lookup(a, name) == Lookup(b, name)
  {
    if |a| > 0 && a[0].name != name {
      LookupSameLabel(a[1..], b[1..], name);
    }
  }

  /** Assigning one label does not change what another label looks up. */
  lemma LookupAssignOther(f: Frame, name: string, cells: seq<Cell>, other: string)
    requires |cells| == f.rows && other != name
    ensures Lookup(Assign(f, name, cells).cols, other) == Lookup(f.cols, other)
  {
    var r := Assign(f, name, cells);
    if name in Names(f) {
      LookupSameLabel(r.cols, f.cols, other);
    } else {
      if other in Names(f) {
        assert r.cols[..|f.cols|] == f.cols;
        LookupPrefix(r.cols, |f.cols|, other);
      } else {
        assert forall i :: 0 <= i < |r.cols| ==> r.cols[i].name != other;
      }
    }
  }

  /** A label found in a prefix is looked up there. */
  lemma {:induction false} LookupPrefix(cols: seq<Column>, k: nat, name: string)
    requires k <= |cols|
    requires exists i :: 0 <= i < k && cols[i].name == name
    ensures Lookup(cols, name) == Lookup(cols[..k], name)
  {
    if cols[0].name != name {
      assert cols[1..][..k - 1] == cols[..k][1..];
      var i :| 0 <= i < k && cols[i].name == name;
      assert cols[1..][i - 1].name == name;
      LookupPrefix(cols[1..], k - 1, name);
    }
  }

  /** A present label looks up a full-length column. */
  lemma LookupLength(f: Frame, name: string)
    requires WellFormed(f) && name in Names(f)
    ensures |Lookup(f.cols, name)| == f.rows
  {
    var i :| 0 <= i < |f.cols| && Names(f)[i] == name;
    assert f.cols[i] in f.cols;
  }

  /** Assigning a label the frame does not carry appends it after the rest. */
  lemma AssignFresh(f: Frame, name: string, cells: seq<Cell>, base: seq<string>, prior: seq<string>)
    requires |cells| == f.rows
    requires Names(f) == base + prior && name !in base && name !in prior
    ensures Names(Assign(f, name, cells)) == base + (prior + [name])
    ensures forall i :: 0 <= i < |f.cols| ==> Assign(f, name, cells).cols[i] == f.cols[i]
  {
    assert name !in Names(f);
  }
}
