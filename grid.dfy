/**
 * Cells of the playing field and the counting argument behind food placement:
 * a snake of distinct in-grid cells that is shorter than the grid leaves at
 * least one cell free.
 */
module Grid {

  /** A grid cell (x, y): x grows to the right, y grows downwards. */
  type Cell = (int, int)

  /** The cell lies on a grid of `w` columns and `h` rows. */
  predicate InGrid(c: Cell, w: int, h: int) {
    0 <= c.0 < w && 0 <= c.1 < h
  }

  predicate AllInGrid(s: seq<Cell>, w: int, h: int) {
    forall i :: 0 <= i < |s| ==> InGrid(s[i], w, h)
  }

  /** No cell occurs twice. */
  predicate Distinct(s: seq<Cell>) {
    forall i, j :: 0 <= i < j < |s| ==> s[i] != s[j]
  }

  /** The cells of row `y`. */
  ghost function Row(w: int, y: int): set<Cell> {
    set x: int | 0 <= x < w :: (x, y)
  }

  /** Every cell of a `w` by `h` grid. */
  ghost function Cells(w: int, h: int): set<Cell> {
    set x: int, y: int | 0 <= x < w && 0 <= y < h :: (x, y)
  }

  lemma {:induction false} RowCard(w: nat, y: int)
    ensures |Row(w, y)| == w
  {
    if w == 0 {
      assert Row(w, y) == {};
    } else {
      RowCard(w - 1, y);
      assert Row(w, y) == Row(w - 1, y) + {(w - 1, y)};
    }
  }

  /** The grid has exactly `w * h` cells. */
  lemma {:induction false} CellsCard(w: nat, h: nat)
    ensures |Cells(w, h)| == w * h
  {
    if h == 0 {
      assert Cells(w, h) == {};
    } else {
      CellsCard(w, h - 1);
      RowCard(w, h - 1);
      assert Cells(w, h) == Cells(w, h - 1) + Row(w, h - 1);
      assert Cells(w, h - 1) !! Row(w, h - 1);
      assert w * (h - 1) + w == w * h;
    }
  }

  /** A sequence without repetitions has as many distinct elements as entries. */
  lemma {:induction false} DistinctCard(s: seq<Cell>)
    requires Distinct(s)
    ensures |set c | c in s| == |s|
  {
    if s != [] {
      DistinctCard(s[1..]);
      assert (set c | c in s) == {s[0]} + (set c | c in s[1..]);
      assert s[0] !in s[1..];
    }
  }

  /**
   * Pigeonhole: distinct in-grid cells fewer than the grid's size leave a
   * free cell, so sampling for an empty cell can succeed.
   */
  lemma EmptyCellExists(s: seq<Cell>, w: nat, h: nat)
    requires AllInGrid(s, w, h) && Distinct(s)
    requires |s| < w * h
    ensures exists c :: InGrid(c, w, h) && c !in s
  {
    var occupied := set c | c in s;
    DistinctCard(s);
    CellsCard(w, h);
    var free := Cells(w, h) - occupied;
    assert occupied <= Cells(w, h) by {
      forall c | c in occupied ensures c in Cells(w, h) {
        var i :| 0 <= i < |s| && s[i] == c;
        assert InGrid(s[i], w, h);
      }
    }
    assert |Cells(w, h)| == |occupied| + |free| by {
      assert Cells(w, h) == occupied + free;
      assert occupied !! free;
    }
    var c :| c in free;
    assert InGrid(c, w, h) && c !in s;
  }
}
