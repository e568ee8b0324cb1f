/** Two-dimensional grids as the generator stores them: a `float[,]` indexed
    `[x, y]` whose first dimension is the width, and the row-major flattening
    `y * width + x` that the colour buffer and the mesh buffers share. */
module Grid {

  /** A `width` by `height` array of heights, held as `columns[x][y]`. */
  datatype HeightMap = HeightMap(width: nat, height: nat, columns: seq<seq<real>>) {

    predicate Valid() {
      && |columns| == width
      && forall x :: 0 <= x < |columns| ==> |columns[x]| == height
    }

    function At(x: nat, y: nat): real
      requires Valid() && x < width && y < height
    {
      columns[x][y]
    }
  }

  /** The flat index of cell (x, y) in a row-major buffer of the given width. */
  function Index(width: nat, x: nat, y: nat): nat {
    y * width + x
  }

  /** The cell a flat index stands for: the inverse of `Index`. */
  function CellOf(width: nat, k: nat): (c: (nat, nat))
    requires width > 0
    ensures c.0 < width
    ensures Index(width, c.0, c.1) == k
  {
    (k % width, k / width)
  }

  /** `a * c <= b * c` for `a <= b`: the one monotonicity fact the grid
      arithmetic keeps needing. */
  lemma MulMonotone(a: nat, b: nat, c: nat)
    requires a <= b
    ensures a * c <= b * c
  {
    assert b * c == a * c + (b - a) * c;
  }

  /** Every cell of a width x height grid has a flat index below width * height. */
  lemma IndexInRange(width: nat, height: nat, x: nat, y: nat)
    requires x < width && y < height
    ensures Index(width, x, y) < width * height
  {
    MulMonotone(y + 1, height, width);
    assert (y + 1) * width == y * width + width;
  }

  /** A cell in an earlier row has a smaller flat index. */
  lemma RowOrder(width: nat, x1: nat, y1: nat, x2: nat, y2: nat)
    requires x1 < width && y1 < y2
    ensures Index(width, x1, y1) < Index(width, x2, y2)
  {
    MulMonotone(y1 + 1, y2, width);
    assert (y1 + 1) * width == y1 * width + width;
  }

  /** A cell at or past row `height` has a flat index of at least width * height. */
  lemma RowBound(width: nat, height: nat, x: nat, y: nat)
    requires height <= y
    ensures width * height <= Index(width, x, y)
  {
    MulMonotone(height, y, width);
  }

  /** Two cells of one row width share a flat index only if they are the same cell. */
  lemma IndexInjective(width: nat, x1: nat, y1: nat, x2: nat, y2: nat)
    requires x1 < width && x2 < width
    requires Index(width, x1, y1) == Index(width, x2, y2)
    ensures x1 == x2 && y1 == y2
  {
    if y1 < y2 {
      RowOrder(width, x1, y1, x2, y2);
    } else if y2 < y1 {
      RowOrder(width, x2, y2, x1, y1);
    }
  }

  /** `Index` is a bijection from the cells of a width x height grid onto
      [0, width * height): in range, onto, and inverted by `CellOf`. */
  lemma IndexBijection(width: nat, height: nat)
    ensures forall x, y :: 0 <= x < width && 0 <= y < height ==> Index(width, x, y) < width * height
    ensures width > 0 ==> forall x, y :: 0 <= x < width && 0 <= y < height ==> CellOf(width, Index(width, x, y)) == (x, y)
    ensures width > 0 ==> forall k :: 0 <= k < width * height ==> CellOf(width, k).1 < height
  {
    forall x, y | 0 <= x < width && 0 <= y < height
      ensures Index(width, x, y) < width * height
    {
      IndexInRange(width, height, x, y);
    }
    if width > 0 {
      forall x, y | 0 <= x < width && 0 <= y < height
        ensures CellOf(width, Index(width, x, y)) == (x, y)
      {
        var c := CellOf(width, Index(width, x, y));
        IndexInjective(width, c.0, c.1, x, y);
      }
      forall k | 0 <= k < width * height
        ensures CellOf(width, k).1 < height
      {
        var c := CellOf(width, k);
        if c.1 >= height {
          RowBound(width, height, c.0, c.1);
        }
      }
    }
  }
}
