/**
 * The Kamvas object itself: its fields, the 128x128 pixel canvas it pastes
 * into in place, and the three actions paint, count_down and stop_painting
 * with the canvas and storage helpers they call.  Every method is proved to
 * take the object from State() to the state the matching Session function
 * gives, so the lemmas of Session hold of the object.
 */
module Kamvas {
  import opened Options
  import opened Canvas
  import opened Display
  import Session

  /** The block grid of a 128x128 image: the pixel at each block's top-left corner. */
  ghost function Blocks(img: array2<Color>): (g: Grid)
    reads img
    requires img.Length0 == Side && img.Length1 == Side
    ensures IsGrid(g)
    ensures forall i, j :: 0 <= i < Cells && 0 <= j < Cells ==> g[i][j] == img[Block * i, Block * j]
  {
    seq(Cells, i requires 0 <= i < Cells reads img =>
      seq(Cells, j requires 0 <= j < Cells reads img => img[Block * i, Block * j]))
  }

  /** A pixel position of the canvas. */
  predicate OnCanvas(x: int, y: int) {
    0 <= x < Side && 0 <= y < Side
  }

  /**
   * A canvas image: 128x128, and every pixel has the colour of its block.
   * (The trigger keeps the solver from chasing pixel to block to pixel.)
   */
  ghost predicate IsCanvas(img: array2<Color>)
    reads img
  {
    && img.Length0 == Side && img.Length1 == Side
    && forall x, y {:trigger OnCanvas(x, y)} :: OnCanvas(x, y) ==> img[x, y] == Blocks(img)[x / Block][y / Block]
  }

  /** The 8x8 thumbnail image as a grid. */
  ghost function Pixels(tile: array2<Color>): (g: Grid)
    reads tile
    requires tile.Length0 == Cells && tile.Length1 == Cells
    ensures IsGrid(g)
    ensures forall i, j :: 0 <= i < Cells && 0 <= j < Cells ==> g[i][j] == tile[i, j]
  {
    seq(Cells, i requires 0 <= i < Cells reads tile =>
      seq(Cells, j requires 0 <= j < Cells reads tile => tile[i, j]))
  }

  /** A new image of one colour (Image.new('RGB', (128, 128), c)). */
  method NewCanvas(c: Color) returns (img: array2<Color>)
    ensures fresh(img) && IsCanvas(img)
    ensures Blocks(img) == Filled(c)
    ensures forall x, y :: 0 <= x < Side && 0 <= y < Side ==> img[x, y] == c
  {
    img := new Color[Side, Side]((x, y) => c);
    GridExt(Blocks(img), Filled(c));
  }

  class Kamvas {
    var running: bool
    var timer: int
    var currentTimer: int
    var canvas: array2<Color>
    var log: seq<Session.Record>
    var button: Button      // what paint_button shows
    var title: Title        // what text_label shows
    const tag: string
    const desc: string

    ghost function State(): Session.State
      reads this, canvas
      requires IsCanvas(canvas)
    {
      Session.State(running, timer, currentTimer, Blocks(canvas), log, button, title, tag, desc)
    }

    ghost predicate Valid()
      reads this, canvas
    {
      IsCanvas(canvas) && Session.Inv(State())
    }

    /** A window with a white canvas and the given stored session list, idle. */
    constructor (stored: seq<Session.Record>)
      ensures Valid() && fresh(canvas)
      ensures State() == Session.Initial(stored)
    {
      running, timer, currentTimer := false, 0, 0;
      log := stored;
      button, title := PaintButton, Name;
      tag, desc := Session.DefaultTag, Session.DefaultDesc;
      var img := NewCanvas(White);
      canvas := img;
    }

    method ResetCanvas()
      requires IsCanvas(canvas)
      modifies this
      ensures IsCanvas(canvas) && fresh(canvas)
      ensures forall x, y :: 0 <= x < Side && 0 <= y < Side ==> canvas[x, y] == White
      ensures State() == Session.ResetCanvas(old(State()))
    {
      canvas := NewCanvas(White);
    }

    method StainCanvas()
      requires IsCanvas(canvas)
      modifies this
      ensures IsCanvas(canvas) && fresh(canvas)
      ensures forall x, y :: 0 <= x < Side && 0 <= y < Side ==> canvas[x, y] == Black
      ensures State() == Session.StainCanvas(old(State()))
    {
      canvas := NewCanvas(Black);
    }

    /** Paste the drawn colour into the 16x16 box at (16 * d.x, 16 * d.y); no other pixel changes. */
    method GeneratePixel(d: Draw)
      requires IsCanvas(canvas)
      modifies canvas
      ensures IsCanvas(canvas)
      ensures forall x, y :: 0 <= x < Side && 0 <= y < Side ==>
        canvas[x, y] == if x / Block == d.x && y / Block == d.y then d.color else old(canvas[x, y])
      ensures State() == Session.GeneratePixel(old(State()), d)
    {
      ghost var before := Blocks(canvas);
      var x0, y0 := d.x * Block, d.y * Block;
      for x := x0 to x0 + Block
        invariant forall a, b :: 0 <= a < Side && 0 <= b < Side ==>
          canvas[a, b] == if x0 <= a < x && y0 <= b < y0 + Block then d.color else old(canvas[a, b])
      {
        for y := y0 to y0 + Block
          invariant forall a, b :: 0 <= a < Side && 0 <= b < Side ==>
            canvas[a, b] == if (x0 <= a < x && y0 <= b < y0 + Block) || (a == x && y0 <= b < y) then d.color
                            else old(canvas[a, b])
        {
          canvas[x, y] := d.color;
        }
      }
      forall x, y | 0 <= x < Side && 0 <= y < Side
        ensures canvas[x, y] == if x / Block == d.x && y / Block == d.y then d.color else old(canvas[x, y])
      {
        assert (x0 <= x < x0 + Block) == (x / Block == d.x);
        assert (y0 <= y < y0 + Block) == (y / Block == d.y);
      }
      GridExt(Blocks(canvas), PaintCell(before, d));
    }

    /** Sample the block corners into an 8x8 thumbnail and append this session's record. */
    method SaveSession(date: string) returns (tile: array2<Color>)
      requires IsCanvas(canvas)
      modifies this
      ensures canvas == old(canvas) && IsCanvas(canvas)
      ensures fresh(tile) && tile.Length0 == Cells && tile.Length1 == Cells
      ensures forall i, j :: 0 <= i < Cells && 0 <= j < Cells ==> tile[i, j] == canvas[Block * i, Block * j]
      ensures (State(), Pixels(tile)) == Session.SaveSession(old(State()), date)
    {
      ghost var before := State();
      tile := new Color[Cells, Cells]((i, j) => White);
      for i := 0 to Cells
        modifies tile
        invariant forall a, b :: 0 <= a < i && 0 <= b < Cells ==> tile[a, b] == canvas[Block * a, Block * b]
      {
        for j := 0 to Cells
          modifies tile
          invariant forall a, b :: 0 <= a < Cells && 0 <= b < Cells && (a < i || (a == i && b < j)) ==>
            tile[a, b] == canvas[Block * a, Block * b]
        {
          tile[i, j] := canvas[Block * i, Block * j];
        }
      }
      assert Blocks(canvas) == before.grid;
      GridExt(Pixels(tile), Blocks(canvas));
      log := log + [Session.Record(date, timer / 60, tag, desc)];
      assert State() == before.(log := before.log + [Session.NewRecord(before, date)]);
    }

    method StopPainting()
      requires IsCanvas(canvas)
      modifies this
      ensures canvas == old(canvas) && IsCanvas(canvas)
      ensures State() == Session.StopPainting(old(State()))
    {
      running := false;
      timer := 0;
      button := PaintButton;
      title := Name;
    }

    /** The one-second tick; returns the saved thumbnail when it ends the session, null otherwise. */
    method CountDown(date: string, d: Draw) returns (tile: array2?<Color>)
      requires IsCanvas(canvas) && Session.CanTick(State())
      modifies this, canvas
      ensures Valid()
      ensures canvas == old(canvas)
      ensures State() == Session.CountDown(old(State()), date, d).0
      ensures tile == null <==> Session.CountDown(old(State()), date, d).1 == None
      ensures tile != null ==> fresh(tile) && tile.Length0 == Cells && tile.Length1 == Cells
                               && Session.CountDown(old(State()), date, d).1 == Some(Pixels(tile))
    {
      ghost var s := State();
      Session.TickKeepsInv(s, date, d);
      if currentTimer > 0 {
        title := Clock(currentTimer);
        button := Session.CountdownButton(timer - currentTimer);
        running := true;
        currentTimer := currentTimer - 1;
        GeneratePixel(d);
        tile := null;
        assert State() == Session.CountDown(s, date, d).0;
      } else {
        title := Clock(currentTimer);
        tile := SaveSession(date);
        StopPainting();
        assert State() == Session.CountDown(s, date, d).0;
      }
    }

    /** The action button: start a session when idle; when running, commit or abort it. */
    method Paint(minutes: int, date: string, d: Draw) returns (tile: array2?<Color>)
      requires Valid() && Session.SliderValue(minutes)
      modifies this, canvas
      ensures Valid()
      ensures canvas == old(canvas) || fresh(canvas)
      ensures State() == Session.Press(old(State()), minutes, date, d).0
      ensures tile == null <==> Session.Press(old(State()), minutes, date, d).1 == None
      ensures tile != null ==> fresh(tile) && tile.Length0 == Cells && tile.Length1 == Cells
                               && Session.Press(old(State()), minutes, date, d).1 == Some(Pixels(tile))
    {
      ghost var s := State();
      Session.PressKeepsInv(s, minutes, date, d);
      if timer < 1 {
        timer := minutes * 60;
        currentTimer := timer;
      }
      if !running {
        tile := CountDown(date, d);
      } else {
        if timer - currentTimer > Session.GraceSeconds {
          StainCanvas();
          var t := SaveSession(date);
          tile := t;
        } else {
          ResetCanvas();
          tile := null;
        }
        ResetCanvas();
        StopPainting();
      }
    }
  }

  /**
   * A whole session on one window: open it on an empty list, press Paint at
   * 25 minutes, let `|ds|` more seconds tick, and press again.  The press
   * commits exactly when more than the grace period has elapsed, counting
   * paint's own first tick: then the list holds one 25-minute record and the
   * thumbnail is all black; otherwise the list stays empty and nothing is saved.
   */
  method PaintTickCancel(start: string, end: string, d0: Draw, ds: seq<Draw>)
    returns (saved: seq<Session.Record>, tile: array2?<Color>)
    requires |ds| < 25 * 60 - 1
    ensures |ds| >= Session.GraceSeconds ==>
              && saved == [Session.Record(end, 25, Session.DefaultTag, Session.DefaultDesc)]
              && tile != null && tile.Length0 == Cells && tile.Length1 == Cells
              && forall i, j :: 0 <= i < Cells && 0 <= j < Cells ==> tile[i, j] == Black
    ensures |ds| < Session.GraceSeconds ==> saved == [] && tile == null
  {
    var k := new Kamvas([]);
    var t0 := k.Paint(25, start, d0);
    var n := 0;
    while n < |ds|
      invariant 0 <= n <= |ds|
      invariant fresh(k) && fresh(k.canvas) && k.Valid()
      invariant k.running && k.timer == 25 * 60 && k.currentTimer == 25 * 60 - 1 - n
      invariant k.log == [] && k.tag == Session.DefaultTag && k.desc == Session.DefaultDesc
    {
      Session.TickStep(k.State(), start, ds[n]);
      var t := k.CountDown(start, ds[n]);
      n := n + 1;
    }
    Session.CancelOutcome(k.State(), 25, end, d0);
    tile := k.Paint(25, end, d0);
    saved := k.log;
  }
}
