/** Dimensions and coordinates shared by every grid of the engine.
    Each 21x80 C array of the source is modelled as one flat row-major array
    of CELLS entries; cell (x, y) lives at index y * WIDTH + x, the layout the
    C arrays have in memory and the order in which the save file lists them. */
module Grid {

  const WIDTH: int := 80
  const HEIGHT: int := 21
  const CELLS: int := WIDTH * HEIGHT
  const MAX_ROOMS: int := 10
  const PC_LIGHT_RADIUS: int := 3
  /** INT32_MAX, the "unreached" sentinel of the distance fields. */
  const INF: int := 0x7fff_ffff

  predicate InBounds(x: int, y: int) {
    0 <= x < WIDTH && 0 <= y < HEIGHT
  }

  function Idx(x: int, y: int): (i: int)
    requires InBounds(x, y)
    ensures 0 <= i < CELLS
  {
    y * WIDTH + x
  }

  /** Column of a flat index. */
  function X(i: int): int
    requires 0 <= i < CELLS
  {
    i % WIDTH
  }

  /** Row of a flat index. */
  function Y(i: int): int
    requires 0 <= i < CELLS
  {
    i / WIDTH
  }

  lemma IdxXY(i: int)
    requires 0 <= i < CELLS
    ensures InBounds(X(i), Y(i)) && Idx(X(i), Y(i)) == i
  {
  }

  lemma XYIdx(x: int, y: int)
    requires InBounds(x, y)
    ensures X(Idx(x, y)) == x && Y(Idx(x, y)) == y
  {
    var i := y * WIDTH + x;
    assert i / WIDTH == y && i % WIDTH == x by {
      assert i == y * WIDTH + x && 0 <= x < WIDTH;
    }
  }

  /** Distinct in-bounds coordinates have distinct flat indices. */
  lemma IdxInjective(x1: int, y1: int, x2: int, y2: int)
    requires InBounds(x1, y1) && InBounds(x2, y2)
    ensures Idx(x1, y1) == Idx(x2, y2) <==> x1 == x2 && y1 == y2
  {
    XYIdx(x1, y1);
    XYIdx(x2, y2);
  }

  /** True for the cells of the outer frame of the grid. */
  predicate IsBorder(x: int, y: int) {
    x == 0 || x == WIDTH - 1 || y == 0 || y == HEIGHT - 1
  }
}
