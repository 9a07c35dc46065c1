/**
 * The painting surface of kamvas.py: a 128x128 RGB image that is only ever
 * written in whole 16x16 blocks, so that it is logically an 8x8 grid of
 * block colours.  This module holds the value-level view of that grid; the
 * pixel array itself lives in the Kamvas class.
 */
module Canvas {

  /** One 8-bit colour channel, as drawn by random.randint(0, 255). */
  type Channel = c: int | 0 <= c < 256

  datatype Color = RGB(r: Channel, g: Channel, b: Channel)

  const White: Color := RGB(255, 255, 255)
  const Black: Color := RGB(0, 0, 0)

  /** The image is Side x Side pixels, seen as Cells x Cells blocks of Block x Block pixels. */
  const Side: int := 128
  const Block: int := 16
  const Cells: int := 8

  /** A block coordinate, as drawn by random.randint(0, 7). */
  type CellIndex = i: int | 0 <= i < 8

  /** The random choices of one generate_pixel call: which block, and which colour. */
  datatype Draw = Draw(x: CellIndex, y: CellIndex, color: Color)

  predicate Hits(d: Draw, i: int, j: int) {
    d.x == i && d.y == j
  }

  /** The logical grid of block colours, indexed g[x][y] like the image's (x, y). */
  type Grid = seq<seq<Color>>

  predicate IsGrid(g: Grid) {
    |g| == Cells && forall i :: 0 <= i < |g| ==> |g[i]| == Cells
  }

  /** A grid whose every block has colour c (a freshly created Image.new of that colour). */
  function Filled(c: Color): (g: Grid)
    ensures IsGrid(g)
    ensures forall i, j :: 0 <= i < Cells && 0 <= j < Cells ==> g[i][j] == c
  {
    seq(Cells, _ => seq(Cells, _ => c))
  }

  /** Paint one block: that block takes the drawn colour and every other block keeps its own. */
  function PaintCell(g: Grid, d: Draw): (r: Grid)
    requires IsGrid(g)
    ensures IsGrid(r)
    ensures forall i, j :: 0 <= i < Cells && 0 <= j < Cells ==>
      r[i][j] == if Hits(d, i, j) then d.color else g[i][j]
  {
    g[d.x := g[d.x][d.y := d.color]]
  }

  /** The grid after the draws of ds, in order. */
  function ApplyDraws(g: Grid, ds: seq<Draw>): (r: Grid)
    requires IsGrid(g)
    ensures IsGrid(r)
    decreases |ds|
  {
    if ds == [] then g else ApplyDraws(PaintCell(g, ds[0]), ds[1..])
  }

  /**
   * After a sequence of paints, a block that no draw touched keeps its colour,
   * and a touched block shows the colour of the LAST draw that touched it.
   */
  lemma {:induction false} CellAfterDraws(g: Grid, ds: seq<Draw>, i: int, j: int)
    requires IsGrid(g) && 0 <= i < Cells && 0 <= j < Cells
    ensures (forall k :: 0 <= k < |ds| ==> !Hits(ds[k], i, j)) ==> ApplyDraws(g, ds)[i][j] == g[i][j]
    ensures forall k ::
              0 <= k < |ds| && Hits(ds[k], i, j) && (forall l :: k < l < |ds| ==> !Hits(ds[l], i, j)) ==>
                ApplyDraws(g, ds)[i][j] == ds[k].color
    decreases |ds|
  {
    if ds != [] {
      var g' := PaintCell(g, ds[0]);
      var rest := ds[1..];
      CellAfterDraws(g', rest, i, j);
      assert ApplyDraws(g, ds) == ApplyDraws(g', rest);
      forall k | 0 <= k < |ds| && Hits(ds[k], i, j) && (forall l :: k < l < |ds| ==> !Hits(ds[l], i, j))
        ensures ApplyDraws(g, ds)[i][j] == ds[k].color
      {
        if k == 0 {
          assert forall l :: 0 <= l < |rest| ==> !Hits(rest[l], i, j) by {
            forall l | 0 <= l < |rest| ensures !Hits(rest[l], i, j) {
              assert rest[l] == ds[l + 1];
            }
          }
        } else {
          assert rest[k - 1] == ds[k];
          assert forall l :: k - 1 < l < |rest| ==> !Hits(rest[l], i, j) by {
            forall l | k - 1 < l < |rest| ensures !Hits(rest[l], i, j) {
              assert rest[l] == ds[l + 1];
            }
          }
        }
      }
      if forall k :: 0 <= k < |ds| ==> !Hits(ds[k], i, j) {
        assert !Hits(ds[0], i, j);
        assert forall l :: 0 <= l < |rest| ==> !Hits(rest[l], i, j) by {
          forall l | 0 <= l < |rest| ensures !Hits(rest[l], i, j) {
            assert rest[l] == ds[l + 1];
          }
        }
      }
    }
  }

  /** Two grids with the same block colours are the same grid. */
  lemma GridExt(g: Grid, h: Grid)
    requires IsGrid(g) && IsGrid(h)
    requires forall i, j :: 0 <= i < Cells && 0 <= j < Cells ==> g[i][j] == h[i][j]
    ensures g == h
  {
    forall i | 0 <= i < Cells ensures g[i] == h[i] {
      assert forall j :: 0 <= j < Cells ==> g[i][j] == h[i][j];
    }
  }
}
