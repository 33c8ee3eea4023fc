/**
  The order in which the grid constructor visits its cells: the first index
  `i` in the outer loop, the second index `j` in the inner loop.
 */
module CellOrder {

  /** The cells (i, 0), (i, 1), ..., (i, h - 1) visited by one run of the inner loop. */
  function Column(i: int, h: nat): seq<(int, int)> {
    seq(h, j => (i, j))
  }

  /** The cells of a w × h grid in visiting order: i outer, j inner. */
  function RowMajor(w: nat, h: nat): (r: seq<(int, int)>)
    ensures |r| == w * h
  {
    if w == 0 then [] else RowMajor(w - 1, h) + Column(w - 1, h)
  }

  /** p is a cell of the w × h grid. */
  predicate InGrid(p: (int, int), w: nat, h: nat) {
    0 <= p.0 < w && 0 <= p.1 < h
  }

  /** p is visited before q: a smaller first index, or the same first index and a smaller second one. */
  predicate VisitedBefore(p: (int, int), q: (int, int)) {
    p.0 < q.0 || (p.0 == q.0 && p.1 < q.1)
  }

  /** One inner-loop step: the column grows by the cell (i, j). */
  lemma ColumnGrows(i: int, j: nat)
    ensures Column(i, j + 1) == Column(i, j) + [(i, j)]
  {
  }

  /** An inner loop visits each cell of its column exactly once and nothing else. */
  lemma {:induction false} ColumnOnce(i: int, h: nat, p: (int, int))
    ensures multiset(Column(i, h))[p] == if p.0 == i && 0 <= p.1 < h then 1 else 0
  {
    if h > 0 {
      ColumnGrows(i, h - 1);
      ColumnOnce(i, h - 1, p);
    }
  }

  /** The constructor calls the factory exactly once for every cell of the grid and never outside it. */
  lemma {:induction false} RowMajorOnce(w: nat, h: nat, p: (int, int))
    ensures multiset(RowMajor(w, h))[p] == if InGrid(p, w, h) then 1 else 0
  {
    if w > 0 {
      RowMajorOnce(w - 1, h, p);
      ColumnOnce(w - 1, h, p);
    }
  }

  /** A cell is visited if and only if it lies inside the grid. */
  lemma RowMajorCovers(w: nat, h: nat, p: (int, int))
    ensures p in RowMajor(w, h) <==> InGrid(p, w, h)
  {
    RowMajorOnce(w, h, p);
  }

  /** The visiting order is strictly increasing: i outer, j inner; in particular no cell is visited twice. */
  lemma {:induction false} RowMajorOrdered(w: nat, h: nat, a: nat, b: nat)
    requires a < b < w * h
    ensures VisitedBefore(RowMajor(w, h)[a], RowMajor(w, h)[b])
  {
    var r := RowMajor(w, h);
    var prefix := RowMajor(w - 1, h);
    assert r == prefix + Column(w - 1, h);
    if b < |prefix| {
      RowMajorOrdered(w - 1, h, a, b);
    } else if a < |prefix| {
      RowMajorCovers(w - 1, h, prefix[a]);
      assert r[a] == prefix[a];
      assert r[b] == (w - 1, b - |prefix|);
    } else {
      assert r[a] == (w - 1, a - |prefix|);
      assert r[b] == (w - 1, b - |prefix|);
    }
  }
}
