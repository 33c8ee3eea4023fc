/**
  A fixed-size two-dimensional store of cell values with change
  notifications, as kept by the generic `Grid` container of a game scene.

  The grid owns two arrays of the same shape: the cell values, and one debug
  label per cell. Writing a cell, or re-raising the change notification for
  it, delivers a change event to the subscriber the constructor registers,
  which copies the cell's current value into its label.
 */
module Grids {
  import CellOrder

  datatype Option<T> = None | Some(value: T)

  /** The arguments of one change notification: the coordinates of the changed cell. */
  datatype ChangeEvent = ChangeEvent(x: int, y: int)

  class Grid<T(0)> {
    const width: nat
    const height: nat
    /** The cell values, indexed [x, y]. */
    const cells: array2<T>
    /**
      The debug label of every cell. None is the text of a cell that still
      holds the default value of its type; Some(v) is the text of v.
     */
    const labels: array2<Option<T>>

    /** Every change event raised so far, oldest first. */
    ghost var Events: seq<ChangeEvent>
    /** Every (i, j) the constructor passed to the factory, in call order. */
    ghost var FactoryCalls: seq<(int, int)>

    /** Both arrays have the grid's shape and are distinct objects. */
    predicate Shaped() {
      cells.Length0 == width && cells.Length1 == height &&
      labels.Length0 == width && labels.Length1 == height &&
      cells as object != labels as object
    }

    predicate InBounds(x: int, y: int) {
      0 <= x < width && 0 <= y < height
    }

    /**
      What the built-in subscriber maintains: a cell that has been notified
      shows its current value, a cell never notified still shows the text it
      was created with.
     */
    ghost predicate Mirrors(x: int, y: int)
      reads this, cells, labels
      requires Shaped() && InBounds(x, y)
    {
      labels[x, y] == if ChangeEvent(x, y) in Events then Some(cells[x, y]) else None
    }

    /** Every label is as the subscriber keeps it, except possibly the one at (x, y). */
    ghost predicate MirrorsExcept(x: int, y: int)
      reads this, cells, labels
      requires Shaped()
    {
      forall i, j :: InBounds(i, j) && (i, j) != (x, y) ==> Mirrors(i, j)
    }

    ghost predicate LabelsMirror()
      reads this, cells, labels
      requires Shaped()
    {
      forall i, j :: InBounds(i, j) ==> Mirrors(i, j)
    }

    ghost predicate Valid()
      reads this, cells, labels
    {
      Shaped() && LabelsMirror()
    }

    /**
      Allocates a width × height store and fills it by calling the factory on
      every cell, i outer and j inner. Each label is created from the cell
      before the factory's value is stored there, so every label starts out
      as the text of the default value.
     */
    constructor (width: nat, height: nat, factory: (int, int) -> T)
      ensures Valid()
      ensures this.width == width && this.height == height
      ensures fresh(cells) && fresh(labels)
      ensures cells.Length0 == width && cells.Length1 == height
      ensures FactoryCalls == CellOrder.RowMajor(width, height)
      ensures forall i, j :: 0 <= i < width && 0 <= j < height ==> cells[i, j] == factory(i, j)
      ensures forall i, j :: 0 <= i < width && 0 <= j < height ==> labels[i, j] == None
      ensures Events == []
    {
      this.width := width;
      this.height := height;
      cells := new T[width, height];
      labels := new Option<T>[width, height];
      Events := [];
      FactoryCalls := [];
      new;
      var i := 0;
      while i < width
        invariant 0 <= i <= width
        invariant Events == []
        invariant FactoryCalls == CellOrder.RowMajor(i, height)
        invariant forall a, b :: 0 <= a < i && 0 <= b < height ==> cells[a, b] == factory(a, b) && labels[a, b] == None
      {
        var j := 0;
        while j < height
          invariant 0 <= j <= height
          invariant Events == []
          invariant FactoryCalls == CellOrder.RowMajor(i, height) + CellOrder.Column(i, j)
          invariant forall a, b :: 0 <= a < i && 0 <= b < height ==> cells[a, b] == factory(a, b) && labels[a, b] == None
          invariant forall b :: 0 <= b < j ==> cells[i, b] == factory(i, b) && labels[i, b] == None
        {
          labels[i, j] := None;
          cells[i, j] := factory(i, j);
          FactoryCalls := FactoryCalls + [(i, j)];
          CellOrder.ColumnGrows(i, j);
          j := j + 1;
        }
        i := i + 1;
      }
    }

    /** The grid's first dimension, fixed at construction. */
    function GetWidth(): (w: int)
      requires Shaped()
      ensures w == cells.Length0 == labels.Length0
    {
      width
    }

    /** The grid's second dimension, fixed at construction. */
    function GetHeight(): (h: int)
      requires Shaped()
      ensures h == cells.Length1 == labels.Length1
    {
      height
    }

    /**
      The value stored at (x, y). In a valid grid the label of that cell shows
      the value read once the cell has been notified, and the default text before.
     */
    function GetValue(x: int, y: int): (v: T)
      reads this, cells, labels
      requires Shaped() && InBounds(x, y)
      ensures Valid() ==> labels[x, y] == if ChangeEvent(x, y) in Events then Some(v) else None
    {
      cells[x, y]
    }

    /**
      The built-in subscriber: copies the notified cell's value into its label.
      It runs only on the event just raised, so it restores the label invariant.
     */
    method RefreshLabel(e: ChangeEvent)
      requires Shaped() && InBounds(e.x, e.y)
      requires |Events| > 0 && Events[|Events| - 1] == e
      requires MirrorsExcept(e.x, e.y)
      modifies labels
      ensures Valid()
      ensures labels[e.x, e.y] == Some(cells[e.x, e.y])
      ensures forall i, j :: 0 <= i < width && 0 <= j < height && (i, j) != (e.x, e.y) ==>
        labels[i, j] == old(labels[i, j])
    {
      labels[e.x, e.y] := Some(cells[e.x, e.y]);
    }

    /** Raises the change event for (x, y); its one subscriber refreshes that label. */
    method RaiseChanged(x: int, y: int)
      requires Shaped() && InBounds(x, y)
      requires MirrorsExcept(x, y)
      modifies this`Events, labels
      ensures Valid()
      ensures Events == old(Events) + [ChangeEvent(x, y)]
      ensures labels[x, y] == Some(cells[x, y])
      ensures forall i, j :: 0 <= i < width && 0 <= j < height && (i, j) != (x, y) ==>
        labels[i, j] == old(labels[i, j])
    {
      var e := ChangeEvent(x, y);
      Events := Events + [e];
      RefreshLabel(e);
    }

    /** Overwrites cell (x, y) with value, then raises the change event for (x, y). */
    method SetValue(x: int, y: int, value: T)
      requires Valid() && InBounds(x, y)
      modifies cells, labels, this`Events
      ensures Valid()
      ensures GetValue(x, y) == value
      ensures forall i, j :: 0 <= i < width && 0 <= j < height && (i, j) != (x, y) ==>
        cells[i, j] == old(cells[i, j])
      ensures Events == old(Events) + [ChangeEvent(x, y)]
      ensures labels[x, y] == Some(value)
      ensures forall i, j :: 0 <= i < width && 0 <= j < height && (i, j) != (x, y) ==>
        labels[i, j] == old(labels[i, j])
    {
      cells[x, y] := value;
      RaiseChanged(x, y);
    }

    /** Raises the change event for (x, y) without writing any cell. */
    method TriggerGridObjectChanged(x: int, y: int)
      requires Valid() && InBounds(x, y)
      modifies labels, this`Events
      ensures Valid()
      ensures unchanged(cells)
      ensures Events == old(Events) + [ChangeEvent(x, y)]
      ensures labels[x, y] == Some(cells[x, y])
      ensures forall i, j :: 0 <= i < width && 0 <= j < height && (i, j) != (x, y) ==>
        labels[i, j] == old(labels[i, j])
    {
      RaiseChanged(x, y);
    }

    /** Writes the cell that `locate` maps a world position to. */
    method SetValueAt<P>(position: P, locate: P -> (int, int), value: T)
      requires Valid() && InBounds(locate(position).0, locate(position).1)
      modifies cells, labels, this`Events
      ensures Valid()
      ensures GetValueAt(position, locate) == value
      ensures forall i, j :: InBounds(i, j) && (i, j) != locate(position) ==>
        cells[i, j] == old(cells[i, j])
      ensures Events == old(Events) + [ChangeEvent(locate(position).0, locate(position).1)]
      ensures labels[locate(position).0, locate(position).1] == Some(value)
      ensures forall i, j :: InBounds(i, j) && (i, j) != locate(position) ==>
        labels[i, j] == old(labels[i, j])
    {
      var (x, y) := locate(position);
      SetValue(x, y, value);
    }

    /** Reads the cell that `locate` maps a world position to. */
    function GetValueAt<P>(position: P, locate: P -> (int, int)): (v: T)
      reads this, cells, labels
      requires Shaped() && InBounds(locate(position).0, locate(position).1)
    {
      var (x, y) := locate(position);
      GetValue(x, y)
    }
  }

  /** A caller's view: writing a cell and reading it back yields the written value. */
  method SetThenGet<T(0)>(g: Grid<T>, x: int, y: int, value: T) returns (r: T)
    requires g.Valid() && g.InBounds(x, y)
    modifies g.cells, g.labels, g`Events
    ensures r == value
    ensures g.Valid()
  {
    g.SetValue(x, y, value);
    r := g.GetValue(x, y);
  }
}
