# Grid: a verified model of a 2D cell store with change notifications

This project models the generic `Grid<TGridObject>` container of a Unity game. It is a fixed-size
`width × height` array of cell values. A factory fills every cell at construction. Cells can be read
and overwritten by integer coordinates. Every write raises a change event carrying the cell's
coordinates. The constructor registers one subscriber to that event, and it copies the cell's current
value into a per-cell debug label.

Modules:

- `CellOrder` (`cell_order.dfy`) is the order in which the constructor visits the cells: `i` in the
  outer loop, `j` in the inner loop. It holds `RowMajor(w, h)` and lemmas proving that this order
  visits every cell of the grid exactly once, visits nothing outside it, and is strictly increasing
  with `i` outer and `j` inner.
- `Grids` (`grid.dfy`) holds the class `Grid<T>`. It keeps `cells: array2<T>` (the source's
  `gridArray`) and `labels: array2<Option<T>>` (the source's `debugTextArray`). Both are updated in
  place. Two ghost fields record what cannot be observed from the arrays. `Events` is every change
  event raised so far. `FactoryCalls` is every `(i, j)` the constructor passed to the factory.
  The object invariant `Valid()` has two parts. `Shaped()` says both arrays have the grid's
  dimensions. `LabelsMirror()` says the label of a cell that has been notified shows the cell's
  current value, and the label of a cell never notified still shows the text it was created with.

Modelling choices:

- A label stores the value whose text it shows, not the text. `None` is the text of a cell that
  still holds `default(TGridObject)`. The constructor creates each label from the cell *before*
  the factory's value is stored in that cell (line 29 comes before line 30). So every label starts
  out as `None`, not as the factory's result.
- `width` and `height` are `const` fields. The arrays are `const` references. So `GetWidth` and
  `GetHeight` return the constructor's arguments for the whole life of the grid.
- In the source, `SetValue` raises the event only when it has a subscriber. The constructor always
  registers one, so after construction every `SetValue` and `TriggerGridObjectChanged` raises it.
  The model raises it unconditionally.
- The factory is a total function `(int, int) -> T`.
- `GetValue` (Assets/Scripts/Grid.cs:75-77) is a function, so it changes nothing. What it returns is fixed by the constructor (`factory(i, j)`) and by `SetValue` (the written value at `(x, y)`, every other cell unchanged).
- The source does not check indices; an out-of-range index throws an exception there. The model
  makes in-range indices a precondition of every cell operation. That includes
  `TriggerGridObjectChanged`, whose subscriber indexes the label array.
- The world-position overloads are modelled with an abstract `locate` function from positions to
  cell coordinates. It stands for `GetXY`.

## Model

| member | source | states |
|---|---|---|
| CellOrder.RowMajor | Assets/Scripts/Grid.cs:27-28 | the nested loops over a `w × h` grid visit exactly `w * h` cells |
| CellOrder.ColumnOnce | Assets/Scripts/Grid.cs:28 | one inner loop visits each `(i, j)` with `0 <= j < h` exactly once, and no other pair |
| CellOrder.RowMajorOnce | Assets/Scripts/Grid.cs:27-30 | the constructor calls the factory exactly once for every cell inside the grid, and never for a pair outside it |
| CellOrder.RowMajorCovers | Assets/Scripts/Grid.cs:27-28 | a pair is visited if and only if it lies inside the grid |
| CellOrder.RowMajorOrdered | Assets/Scripts/Grid.cs:27-28 | a cell visited earlier has a smaller `i`, or the same `i` and a smaller `j`, so the order is `i` outer and `j` inner |
| Grids.Grid.constructor | Assets/Scripts/Grid.cs:19-41 | store is `width × height`; factory calls are exactly `RowMajor(width, height)` in that order; cell `(i, j)` holds `factory(i, j)`; every label is `None` (made before its cell was written); no events yet; invariant established |
| Grids.Grid.GetWidth | Assets/Scripts/Grid.cs:43-45 | returns the first dimension of both the cell store and the label store |
| Grids.Grid.GetValue | Assets/Scripts/Grid.cs:75-77 | in a valid grid the label of `(x, y)` shows the value read once that cell has been notified, and the default text before; the value itself is the constructor's `factory(x, y)` or the last value `SetValue` wrote there |
| Grids.Grid.GetHeight | Assets/Scripts/Grid.cs:47-49 | returns the second dimension of both the cell store and the label store |
| Grids.Grid.RefreshLabel | Assets/Scripts/Grid.cs:38-40 | the built-in subscriber, run on the event just raised: label `(x, y)` becomes the current value of cell `(x, y)`; no other label changes; the label invariant is restored |
| Grids.Grid.RaiseChanged | Assets/Scripts/Grid.cs:66 | exactly one event `(x, y)` is appended to the log and delivered to the subscriber; only label `(x, y)` changes; given every other label is as the subscriber keeps it, the whole invariant holds afterwards |
| Grids.Grid.SetValue | Assets/Scripts/Grid.cs:64-67 | reading `(x, y)` afterwards gives the written value; no other cell or label changes; exactly one event `(x, y)` is appended after the write; label `(x, y)` shows the new value; the invariant is preserved |
| Grids.Grid.TriggerGridObjectChanged | Assets/Scripts/Grid.cs:85-87 | no cell changes; exactly one event `(x, y)` is appended; label `(x, y)` is refreshed from the current cell and no other label changes; the invariant is preserved |
| Grids.Grid.SetValueAt | Assets/Scripts/Grid.cs:69-83 | reading the same position back with `GetValueAt` gives the written value; no cell or label other than the one the position maps to changes; exactly one event for that cell is appended; its label shows the new value; the invariant is preserved |
| Grids.SetThenGet | Assets/Scripts/Grid.cs:64-77 | a caller that writes `v` at an in-range `(x, y)` and reads `(x, y)` back gets `v` |

## Left out

- `size`, `GetSize`, `GetPosition` and `GetXY` (Assets/Scripts/Grid.cs:16, 51-62): these are floating-point scaling and `Mathf.FloorToInt`. The world-position overloads take an abstract `locate` function in their place, so `GetXY(GetPosition(x, y)) == (x, y)` is not modelled.
- `CreateWorldText`, the `TextMesh`/`GameObject` creation and the `Debug.DrawLine` calls (Assets/Scripts/Grid.cs:29, 31-32, 35-36, 89-107): these are engine rendering and scene-graph calls. Only the label's content is modelled.
- `ToString()` of a cell value: this is a foreign conversion. A label holds the value itself, and `None` holds the text of the default value.
- Subscribers added by outside code to `OnGridObjectChanged`: only the built-in subscriber and a log of raised events are modelled.
- The `Grid` argument the constructor passes to the factory: the factory cannot observe the grid it is filling.
- Grids.Grid.constructor: does not model the exception C# throws for a negative width or height, because the sizes are `nat`.
- Grids.Grid.SetValue: does not model the index-out-of-range exception, because in-range coordinates are required.
- Grids.Grid.TriggerGridObjectChanged: does not model the index-out-of-range exception, because in-range coordinates are required.
- Grids.Grid.SetValueAt: does not model the index-out-of-range exception, because in-range coordinates are required.
- Grids.Grid.GetValueAt: does not model the index-out-of-range exception, because in-range coordinates are required.
- Cell values are immutable values in the model. In C#, a reference-typed cell can change internally without any call to `SetValue`, which is why `TriggerGridObjectChanged` exists. Here the label invariant holds after every operation, so a trigger re-shows the value the label already displays for a cell notified before.
- Concurrency is not modelled. The source is single-threaded and delivers events synchronously.
