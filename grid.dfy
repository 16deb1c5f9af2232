/** Tiling generated images into one display grid (`make_grid` in model.py).

    An image is an h x w x 3 array of unsigned bytes. The grid has
    `nrows` block rows and `ncols` block columns of h x w pixels each; image
    number `ncols * i + j` goes into block (i, j), and a block without an
    image stays black (all zeros). */
module Grid {

  /** A numpy `uint8` value. */
  type Byte = x: int | 0 <= x < 256

  /** The number of colour channels of every image and of the grid. */
  const Channels: nat := 3

  /** An image with its numpy shape `(height, width, 3)`; `pixels[r][s][c]`
      is channel `c` of the pixel in row `r`, column `s`. */
  datatype Image = Image(height: nat, width: nat, pixels: seq<seq<seq<Byte>>>) {

    /** The pixel data really has the shape the image claims. */
    predicate WellFormed() {
      |pixels| == height &&
      forall r :: 0 <= r < height ==>
        |pixels[r]| == width &&
        forall s :: 0 <= s < width ==> |pixels[r][s]| == Channels
    }

    predicate HasShape(h: nat, w: nat) {
      WellFormed() && height == h && width == w
    }
  }

  /** What `make_grid` needs of its arguments: a first image (whose shape
      fixes the block size) and, for every image that is placed in a block,
      exactly that shape (otherwise the slice assignment raises). */
  predicate Placeable(images: seq<Image>, nrows: nat, ncols: nat) {
    |images| > 0 &&
    forall k :: 0 <= k < |images| && k < nrows * ncols ==>
      images[k].HasShape(images[0].height, images[0].width)
  }

  /** Block height and width: the shape of the first image. */
  function BlockHeight(images: seq<Image>): nat
    requires |images| > 0
  {
    images[0].height
  }

  function BlockWidth(images: seq<Image>): nat
    requires |images| > 0
  {
    images[0].width
  }

  // ---------------------------------------------------------------------
  // Arithmetic of block positions: a coordinate p of the grid is
  // size * i + r with r < size, for exactly one block number i.
  // ---------------------------------------------------------------------

  lemma MulMonotone(a: int, b: int, c: int)
    requires 0 <= a && b <= c
    ensures a * b <= a * c
  {
    assert a * c - a * b == a * (c - b);
  }

  /** Dividing a position by the block size gives its block and offset. */
  lemma DivModOfPosition(p: int, size: int, i: int, r: int)
    requires 0 <= r < size && p == size * i + r
    ensures p / size == i && p % size == r
  {
    var q, m := p / size, p % size;
    assert p == size * q + m;
    assert size * (i + 1) == size * i + size;
    assert size * (q + 1) == size * q + size;
    if q > i {
      MulMonotone(size, i + 1, q);
    } else if q < i {
      MulMonotone(size, q + 1, i);
    }
  }

  /** Blocks are disjoint: a position lies in at most one block. */
  lemma PositionUnique(size: int, i: int, r: int, i': int, r': int)
    requires 0 <= r < size && 0 <= r' < size
    requires size * i + r == size * i' + r'
    ensures i == i' && r == r'
  {
    DivModOfPosition(size * i + r, size, i, r);
    DivModOfPosition(size * i' + r', size, i', r');
  }

  /** Blocks cover the grid: every position below size * count lies in a
      block with number below count. */
  lemma BlockOfPosition(p: nat, size: nat, count: nat)
    requires p < size * count
    ensures 0 < size && p / size < count
  {
    assert 0 < size;
    if p / size >= count {
      MulMonotone(size, count, p / size);
    }
  }

  /** Block i ends where block i + 1 begins, at or before size * count. */
  lemma BlockEnd(size: nat, i: nat, count: nat)
    requires i < count
    ensures size * i + size <= size * count
  {
    assert size * (i + 1) == size * i + size;
    MulMonotone(size, i + 1, count);
  }

  /** A position at or after the start of block j lies in block j or later. */
  lemma BlockAtLeast(p: nat, size: nat, j: nat)
    requires 0 < size && size * j <= p
    ensures j <= p / size
  {
    var q := p / size;
    assert size * (q + 1) == size * q + size;
    if q < j {
      MulMonotone(size, q + 1, j);
    }
  }

  /** Block (i, j) is given image number ncols * i + j, which is below
      nrows * ncols. */
  lemma CellIndexBound(i: nat, j: nat, nrows: nat, ncols: nat)
    requires i < nrows && j < ncols
    ensures ncols * i + j < nrows * ncols
  {
    MulMonotone(ncols, i + 1, nrows);
    assert ncols * (i + 1) == ncols * i + ncols;
  }

  /** Pixel (y, x) lies in the rectangle of block (i, j), the area
      `grid[h*i : h*(i+1), w*j : w*(j+1)]` that pasting that block writes. */
  predicate InBlock(h: nat, w: nat, i: nat, j: nat, y: nat, x: nat) {
    h * i <= y < h * i + h && w * j <= x < w * j + w
  }

  /** The rectangles of two blocks overlap only when they are the same
      block, so each grid pixel is written by at most one paste. */
  lemma BlocksDisjoint(h: nat, w: nat, i: nat, j: nat, i': nat, j': nat, y: nat, x: nat)
    requires InBlock(h, w, i, j, y, x) && InBlock(h, w, i', j', y, x)
    ensures i == i' && j == j'
  {
    PositionUnique(h, i, y - h * i, i', y - h * i');
    PositionUnique(w, j, x - w * j, j', x - w * j');
  }

  /** Two different blocks of a grid with ncols columns are given different
      images. */
  lemma BlockImagesDistinct(ncols: nat, i: nat, j: nat, i': nat, j': nat)
    requires j < ncols && j' < ncols
    requires i != i' || j != j'
    ensures ncols * i + j != ncols * i' + j'
  {
    if ncols * i + j == ncols * i' + j' {
      PositionUnique(ncols, i, j, i', j');
    }
  }

  // ---------------------------------------------------------------------
  // The grid that make_grid builds, pixel by pixel
  // ---------------------------------------------------------------------

  /** Channel c of the grid pixel in row y, column x: the pixel of the image
      assigned to the block that contains (y, x), or 0 when that block has
      no image. */
  function GridValue(images: seq<Image>, nrows: nat, ncols: nat, y: nat, x: nat, c: nat): Byte
    requires Placeable(images, nrows, ncols)
    requires y < BlockHeight(images) * nrows && x < BlockWidth(images) * ncols && c < Channels
  {
    var h, w := BlockHeight(images), BlockWidth(images);
    BlockOfPosition(y, h, nrows);
    BlockOfPosition(x, w, ncols);
    var i, j := y / h, x / w;
    CellIndexBound(i, j, nrows, ncols);
    var k := ncols * i + j;
    if k < |images| then images[k].pixels[y % h][x % w][c] else 0
  }

  /** Block (i, j) of the grid holds image ncols * i + j pixel for pixel,
      and is all zeros when there is no such image. */
  lemma BlockContents(images: seq<Image>, nrows: nat, ncols: nat, i: nat, j: nat, r: nat, s: nat, c: nat)
    requires Placeable(images, nrows, ncols)
    requires i < nrows && j < ncols
    requires r < BlockHeight(images) && s < BlockWidth(images) && c < Channels
    ensures BlockHeight(images) * i + r < BlockHeight(images) * nrows
    ensures BlockWidth(images) * j + s < BlockWidth(images) * ncols
    ensures ncols * i + j < nrows * ncols
    ensures GridValue(images, nrows, ncols, BlockHeight(images) * i + r, BlockWidth(images) * j + s, c)
            == if ncols * i + j < |images| then images[ncols * i + j].pixels[r][s][c] else 0
  {
    var h, w := BlockHeight(images), BlockWidth(images);
    CellIndexBound(i, j, nrows, ncols);
    BlockEnd(h, i, nrows);
    BlockEnd(w, j, ncols);
    DivModOfPosition(h * i + r, h, i, r);
    DivModOfPosition(w * j + s, w, j, s);
  }

  /** When there are at least nrows * ncols images (as `run` provides),
      every block is filled from its image: no block stays black. */
  lemma FullyPopulated(images: seq<Image>, nrows: nat, ncols: nat, i: nat, j: nat, r: nat, s: nat, c: nat)
    requires Placeable(images, nrows, ncols) && |images| >= nrows * ncols
    requires i < nrows && j < ncols
    requires r < BlockHeight(images) && s < BlockWidth(images) && c < Channels
    ensures ncols * i + j < nrows * ncols <= |images|
    ensures BlockHeight(images) * i + r < BlockHeight(images) * nrows
    ensures BlockWidth(images) * j + s < BlockWidth(images) * ncols
    ensures GridValue(images, nrows, ncols, BlockHeight(images) * i + r, BlockWidth(images) * j + s, c)
            == images[ncols * i + j].pixels[r][s][c]
  {
    BlockContents(images, nrows, ncols, i, j, r, s, c);
  }

  /** Images from number nrows * ncols on never appear: the grid of the
      list is the grid of its first nrows * ncols images. */
  lemma OnlyLeadingImagesShown(images: seq<Image>, nrows: nat, ncols: nat, y: nat, x: nat, c: nat)
    requires Placeable(images, nrows, ncols) && |images| > nrows * ncols
    requires y < BlockHeight(images) * nrows && x < BlockWidth(images) * ncols && c < Channels
    ensures Placeable(images[..nrows * ncols], nrows, ncols)
    ensures GridValue(images, nrows, ncols, y, x, c) == GridValue(images[..nrows * ncols], nrows, ncols, y, x, c)
  {
    var h, w := BlockHeight(images), BlockWidth(images);
    BlockOfPosition(y, h, nrows);
    BlockOfPosition(x, w, ncols);
    CellIndexBound(y / h, x / w, nrows, ncols);
  }

  // ---------------------------------------------------------------------
  // The in-place construction
  // ---------------------------------------------------------------------

  /** The numpy slice assignment `grid[top:top+h, left:left+w] = img`:
      the rectangle at (top, left) gets the image, every other pixel keeps
      its value. */
  method PasteBlock(grid: array3<Byte>, img: Image, top: nat, left: nat)
    requires img.WellFormed() && grid.Length2 == Channels
    requires top + img.height <= grid.Length0 && left + img.width <= grid.Length1
    modifies grid
    ensures forall y, x, c :: 0 <= y < grid.Length0 && 0 <= x < grid.Length1 && 0 <= c < Channels ==>
      grid[y, x, c] == if top <= y < top + img.height && left <= x < left + img.width
                       then img.pixels[y - top][x - left][c] else old(grid[y, x, c])
  {
    for r := 0 to img.height
      invariant forall y, x, c :: 0 <= y < grid.Length0 && 0 <= x < grid.Length1 && 0 <= c < Channels ==>
        grid[y, x, c] == if top <= y < top + r && left <= x < left + img.width
                         then img.pixels[y - top][x - left][c] else old(grid[y, x, c])
    {
      for s := 0 to img.width
        invariant forall y, x, c :: 0 <= y < grid.Length0 && 0 <= x < grid.Length1 && 0 <= c < Channels ==>
          grid[y, x, c] == if (top <= y < top + r && left <= x < left + img.width) ||
                              (y == top + r && left <= x < left + s)
                           then img.pixels[y - top][x - left][c] else old(grid[y, x, c])
      {
        grid[top + r, left + s, 0] := img.pixels[r][s][0];
        grid[top + r, left + s, 1] := img.pixels[r][s][1];
        grid[top + r, left + s, 2] := img.pixels[r][s][2];
      }
    }
  }

  /** `make_grid(images, nrows, ncols)`: a zeroed (h * nrows) x (w * ncols)
      x 3 grid, h x w the shape of the first image, into which the nested
      loop pastes image ncols * i + j at block (i, j) until the images run
      out. */
  method MakeGrid(images: seq<Image>, nrows: nat, ncols: nat) returns (grid: array3<Byte>)
    requires Placeable(images, nrows, ncols)
    ensures grid.Length0 == BlockHeight(images) * nrows
    ensures grid.Length1 == BlockWidth(images) * ncols
    ensures grid.Length2 == Channels
    ensures forall y, x, c :: 0 <= y < grid.Length0 && 0 <= x < grid.Length1 && 0 <= c < Channels ==>
      grid[y, x, c] == GridValue(images, nrows, ncols, y, x, c)
  {
    var h, w := BlockHeight(images), BlockWidth(images);
    grid := new Byte[h * nrows, w * ncols, Channels]((_, _, _) => 0);
    for i := 0 to nrows
      invariant forall y, x, c :: 0 <= y < grid.Length0 && 0 <= x < grid.Length1 && 0 <= c < Channels ==>
        grid[y, x, c] == if y < h * i then GridValue(images, nrows, ncols, y, x, c) else 0
    {
      FillBlockRow(grid, images, nrows, ncols, i);
      assert h * (i + 1) == h * i + h;
    }
  }

  /** One pass of the outer loop of `make_grid`: the inner loop over the
      blocks of block row i, left to right, which pastes image ncols * i + j
      into block (i, j) and stops (`break`) at the first missing image. On
      entry the block rows above i are done and the rest is zero; on exit
      block row i is done too. */
  method FillBlockRow(grid: array3<Byte>, images: seq<Image>, nrows: nat, ncols: nat, i: nat)
    requires Placeable(images, nrows, ncols) && i < nrows
    requires grid.Length0 == BlockHeight(images) * nrows
    requires grid.Length1 == BlockWidth(images) * ncols
    requires grid.Length2 == Channels
    requires forall y, x, c :: 0 <= y < grid.Length0 && 0 <= x < grid.Length1 && 0 <= c < Channels ==>
      grid[y, x, c] == if y < BlockHeight(images) * i then GridValue(images, nrows, ncols, y, x, c) else 0
    modifies grid
    ensures forall y, x, c :: 0 <= y < grid.Length0 && 0 <= x < grid.Length1 && 0 <= c < Channels ==>
      grid[y, x, c] == if y < BlockHeight(images) * i + BlockHeight(images)
                       then GridValue(images, nrows, ncols, y, x, c) else 0
  {
    var h, w := BlockHeight(images), BlockWidth(images);
    BlockEnd(h, i, nrows);
    for j := 0 to ncols
      invariant forall y, x, c :: 0 <= y < grid.Length0 && 0 <= x < grid.Length1 && 0 <= c < Channels ==>
        grid[y, x, c] == if y < h * i || (y < h * i + h && x < w * j)
                         then GridValue(images, nrows, ncols, y, x, c) else 0
    {
      var index := ncols * i + j;
      if index >= |images| {
        RestOfRowEmpty(images, nrows, ncols, i, j);
        break;
      }
      CellIndexBound(i, j, nrows, ncols);
      BlockEnd(w, j, ncols);
      assert w * (j + 1) == w * j + w;
      PasteBlock(grid, images[index], h * i, w * j);
      PastedBlockMatches(images, nrows, ncols, i, j);
    }
  }

  /** What `grid[h*i:h*(i+1), w*j:w*(j+1)] = images[ncols*i+j]` writes is
      the grid's intended block (i, j). */
  lemma PastedBlockMatches(images: seq<Image>, nrows: nat, ncols: nat, i: nat, j: nat)
    requires Placeable(images, nrows, ncols)
    requires i < nrows && j < ncols && ncols * i + j < |images|
    ensures ncols * i + j < nrows * ncols
    ensures BlockHeight(images) * i + BlockHeight(images) <= BlockHeight(images) * nrows
    ensures BlockWidth(images) * j + BlockWidth(images) <= BlockWidth(images) * ncols
    ensures forall y, x, c ::
      BlockHeight(images) * i <= y < BlockHeight(images) * i + BlockHeight(images) &&
      BlockWidth(images) * j <= x < BlockWidth(images) * j + BlockWidth(images) && 0 <= c < Channels ==>
        GridValue(images, nrows, ncols, y, x, c)
        == images[ncols * i + j].pixels[y - BlockHeight(images) * i][x - BlockWidth(images) * j][c]
  {
    var h, w := BlockHeight(images), BlockWidth(images);
    CellIndexBound(i, j, nrows, ncols);
    BlockEnd(h, i, nrows);
    BlockEnd(w, j, ncols);
    forall y, x, c | h * i <= y < h * i + h && w * j <= x < w * j + w && 0 <= c < Channels
      ensures GridValue(images, nrows, ncols, y, x, c) == images[ncols * i + j].pixels[y - h * i][x - w * j][c]
    {
      BlockContents(images, nrows, ncols, i, j, y - h * i, x - w * j, c);
    }
  }

  /** Once image number ncols * i + j does not exist, no later block of
      block row i has an image: the `break` skips only writes of zeros. */
  lemma RestOfRowEmpty(images: seq<Image>, nrows: nat, ncols: nat, i: nat, j: nat)
    requires Placeable(images, nrows, ncols)
    requires i < nrows && j <= ncols && ncols * i + j >= |images|
    ensures forall y, x, c ::
      BlockHeight(images) * i <= y < BlockHeight(images) * i + BlockHeight(images) &&
      BlockWidth(images) * j <= x < BlockWidth(images) * ncols && 0 <= c < Channels ==>
        y < BlockHeight(images) * nrows &&
        GridValue(images, nrows, ncols, y, x, c) == 0
  {
    var h, w := BlockHeight(images), BlockWidth(images);
    BlockEnd(h, i, nrows);
    forall y, x, c | h * i <= y < h * i + h && w * j <= x < w * ncols && 0 <= c < Channels
      ensures y < h * nrows && GridValue(images, nrows, ncols, y, x, c) == 0
    {
      DivModOfPosition(y, h, i, y - h * i);
      BlockOfPosition(x, w, ncols);
      BlockAtLeast(x, w, j);
    }
  }
}
