/**
 * The session machine of the Kamvas class, as values: one State holds what
 * the object holds (the clock flag, timer, current_timer, the canvas as its
 * 8x8 block grid, the stored session list and the two labels), and each
 * action of the class is a function from the state before to the state
 * after, paired with the thumbnail it saved, if any.  The Kamvas class is
 * proved to follow these functions; the lemmas here state what a session
 * does as a whole.
 */
module Session {
  import opened Options
  import opened Canvas
  import opened Display

  /** Cancelling with at most this many seconds elapsed aborts; later it commits. */
  const GraceSeconds: int := 10

  const DefaultTag: string := "Empty"
  const DefaultDesc: string := "..."

  /** The values the duration slider offers: 25 to 240 minutes in steps of 5. */
  predicate SliderValue(minutes: int) {
    25 <= minutes <= 240 && minutes % 5 == 0
  }

  /** One entry of the stored session list: {date, timer (minutes), tag, desc}. */
  datatype Record = Record(date: string, timer: int, tag: string, desc: string)

  datatype State = State(
    running: bool,        // a tick is scheduled (`clock` is not None)
    timer: int,           // session length in seconds, 0 when idle
    current: int,         // seconds remaining
    grid: Grid,           // the canvas, block by block
    log: seq<Record>,     // the stored session list
    button: Button,       // what the action button shows
    text: Title,          // what the title label shows
    tag: string,
    desc: string)

  function Initial(stored: seq<Record>): (s: State)
    ensures Inv(s) && !s.running && s.grid == Filled(White) && s.log == stored
  {
    State(false, 0, 0, Filled(White), stored, PaintButton, Name, DefaultTag, DefaultDesc)
  }

  /** The button count_down shows for `elapsed` seconds: "Give up" after the grace period, else "Cancel (n)". */
  function CountdownButton(elapsed: nat): Button {
    if elapsed > GraceSeconds then GiveUpButton else CancelButton(elapsed)
  }

  /**
   * The button text is "Give up" exactly when more than the grace period has
   * elapsed; otherwise it is "Cancel (n)" with n the elapsed seconds, the
   * boundary n = 10 included.
   */
  lemma LabelMeaning(elapsed: nat)
    ensures ButtonText(CountdownButton(elapsed)) == GiveUpLabel <==> elapsed > GraceSeconds
    ensures elapsed <= GraceSeconds ==> ButtonText(CountdownButton(elapsed)) == "Cancel (" + NatToString(elapsed) + ")"
  {
    ButtonTextRoundTrip(CountdownButton(elapsed));
    ButtonTextRoundTrip(GiveUpButton);
  }

  /** Whether cancelling now commits: more than the grace period has elapsed. */
  predicate Committed(s: State) {
    s.timer - s.current > GraceSeconds
  }

  /**
   * What holds between actions.  While running, 0 <= current < timer, timer is
   * a slider value in seconds, and the labels are those count_down wrote on its
   * last call, computed before it decremented current.  While idle, timer is 0
   * and the labels read "Paint" and the title.
   */
  ghost predicate Inv(s: State) {
    && IsGrid(s.grid)
    && 0 <= s.current
    && (s.running ==>
          && s.current < s.timer
          && s.timer % 60 == 0 && SliderValue(s.timer / 60)
          && s.button == CountdownButton(s.timer - s.current - 1)
          && s.text == Clock(s.current + 1))
    && (!s.running ==> s.timer == 0 && s.button == PaintButton && s.text == Name)
  }

  /** Paint just set the timer from the slider and is about to run the first tick. */
  ghost predicate Starting(s: State) {
    && IsGrid(s.grid)
    && !s.running
    && s.timer == s.current
    && s.timer % 60 == 0 && SliderValue(s.timer / 60)
  }

  /** The states count_down is called in: a running session, or the first call from paint. */
  ghost predicate CanTick(s: State) {
    (Inv(s) && s.running) || Starting(s)
  }

  function ResetCanvas(s: State): State {
    s.(grid := Filled(White))
  }

  function StainCanvas(s: State): State {
    s.(grid := Filled(Black))
  }

  function GeneratePixel(s: State, d: Draw): State
    requires IsGrid(s.grid)
  {
    s.(grid := PaintCell(s.grid, d))
  }

  /** The record save_session appends: the date, int(timer / 60), the tag and the description. */
  function NewRecord(s: State, date: string): Record {
    Record(date, s.timer / 60, s.tag, s.desc)
  }

  /** save_session: the thumbnail is the grid of block corners; the record goes at the end of the list. */
  function SaveSession(s: State, date: string): (State, Grid) {
    (s.(log := s.log + [NewRecord(s, date)]), s.grid)
  }

  function StopPainting(s: State): State {
    s.(running := false, timer := 0, button := PaintButton, text := Name)
  }

  /** count_down: one tick, painting a block, or, with nothing remaining, the natural end. */
  function CountDown(s: State, date: string, d: Draw): (State, Option<Grid>)
    requires IsGrid(s.grid) && 0 <= s.current <= s.timer
  {
    var s1 := s.(text := Clock(s.current));
    if s1.current > 0 then
      var s2 := s1.(button := CountdownButton(s1.timer - s1.current), running := true, current := s1.current - 1);
      (GeneratePixel(s2, d), None)
    else
      var (s2, tile) := SaveSession(s1, date);
      (StopPainting(s2), Some(tile))
  }

  /** paint: start a session when idle; otherwise commit or abort it. */
  function Press(s: State, minutes: int, date: string, d: Draw): (State, Option<Grid>)
    requires Inv(s) && SliderValue(minutes)
  {
    var s1 := if s.timer < 1 then s.(timer := minutes * 60, current := minutes * 60) else s;
    if !s1.running then
      CountDown(s1, date, d)
    else if s1.timer - s1.current > GraceSeconds then
      var (s2, tile) := SaveSession(StainCanvas(s1), date);
      (StopPainting(ResetCanvas(s2)), Some(tile))
    else
      (StopPainting(ResetCanvas(ResetCanvas(s1))), None)
  }

  /** Ticks with no press in between, one draw per tick, none of them the final one. */
  function RunTicks(s: State, date: string, ds: seq<Draw>): State
    requires IsGrid(s.grid) && |ds| <= s.current <= s.timer
    decreases |ds|
  {
    if ds == [] then s else RunTicks(CountDown(s, date, ds[0]).0, date, ds[1..])
  }

  // ---------------------------------------------------------------------------
  // Properties of single actions

  /** count_down keeps the invariant, from a running session or from paint's first call. */
  lemma TickKeepsInv(s: State, date: string, d: Draw)
    requires CanTick(s)
    ensures Inv(CountDown(s, date, d).0)
  {
    var r := CountDown(s, date, d).0;
    if s.current > 0 {
      assert r.current + 1 == s.current && r.timer == s.timer;
    }
  }

  /** paint keeps the invariant. */
  lemma PressKeepsInv(s: State, minutes: int, date: string, d: Draw)
    requires Inv(s) && SliderValue(minutes)
    ensures Inv(Press(s, minutes, date, d).0)
  {
    if !s.running {
      TickKeepsInv(s.(timer := minutes * 60, current := minutes * 60), date, d);
    }
  }

  /**
   * Paint while idle starts a session of slider * 60 seconds, and its first
   * count_down at once leaves one second gone, the session running, one
   * block painted, the list untouched, the button reading "Cancel (0)" and
   * the title showing the full duration.
   */
  lemma StartFromIdle(s: State, minutes: int, date: string, d: Draw)
    requires Inv(s) && !s.running && SliderValue(minutes)
    ensures var (r, tile) := Press(s, minutes, date, d);
      && r.running && r.timer == minutes * 60 && r.current == r.timer - 1
      && r.grid == PaintCell(s.grid, d) && r.log == s.log && tile == None
      && ButtonText(r.button) == "Cancel (0)" && TitleText(r.text) == ClockText(minutes * 60)
  {
  }

  /**
   * A tick of a running session with time left takes exactly one second off,
   * repaints exactly the drawn block, and changes nothing else.
   */
  lemma TickStep(s: State, date: string, d: Draw)
    requires Inv(s) && s.running && s.current > 0
    ensures var (r, tile) := CountDown(s, date, d);
      && r.running && r.timer == s.timer && r.current == s.current - 1
      && 0 <= r.current <= r.timer
      && r.log == s.log && tile == None
      && r.grid[d.x][d.y] == d.color
      && (forall i, j :: 0 <= i < Cells && 0 <= j < Cells && !Hits(d, i, j) ==> r.grid[i][j] == s.grid[i][j])
  {
  }

  /**
   * The tick with nothing remaining is the natural end: the canvas is saved as
   * it stands (neither stained nor reset), one record of the session's minutes
   * is appended, and the session is idle.
   */
  lemma ExpiryTick(s: State, date: string, d: Draw)
    requires Inv(s) && s.running && s.current == 0
    ensures var (r, tile) := CountDown(s, date, d);
      && !r.running && r.timer == 0
      && r.grid == s.grid && tile == Some(s.grid)
      && r.log == s.log + [Record(date, s.timer / 60, s.tag, s.desc)]
  {
  }

  /**
   * Paint while running ends the session.  With more than the grace period
   * elapsed it commits: one record with the session's minutes is appended and
   * the saved thumbnail is all black.  Otherwise it aborts and the list is
   * unchanged.  Both ways end idle, with a white canvas and timer 0.
   */
  lemma CancelOutcome(s: State, minutes: int, date: string, d: Draw)
    requires Inv(s) && s.running && SliderValue(minutes)
    ensures var (r, tile) := Press(s, minutes, date, d);
      && !r.running && r.timer == 0 && r.grid == Filled(White)
      && (Committed(s) ==>
            && r.log == s.log + [Record(date, s.timer / 60, s.tag, s.desc)]
            && SliderValue(s.timer / 60)
            && tile == Some(Filled(Black)))
      && (!Committed(s) ==> r.log == s.log && tile == None)
  {
  }

  /** Resetting twice is the same as resetting once. */
  lemma ResetIdempotent(s: State)
    ensures ResetCanvas(ResetCanvas(s)) == ResetCanvas(s)
    ensures ResetCanvas(s).grid == Filled(White)
  {
  }

  /** Saving keeps every earlier record, in order, and puts one new record last. */
  lemma SaveAppends(s: State, date: string)
    ensures var (r, tile) := SaveSession(s, date);
      && |r.log| == |s.log| + 1
      && (forall k :: 0 <= k < |s.log| ==> r.log[k] == s.log[k])
      && r.log[|s.log|] == Record(date, s.timer / 60, s.tag, s.desc)
      && tile == s.grid
  {
  }

  /**
   * The running button lags the decision paint takes by one second: it was
   * computed before current_timer was decremented.  So a "Cancel (n)" button
   * means n + 1 seconds have elapsed, "Give up" appears only once 12 seconds
   * have, and a button reading "Cancel (10)" commits when pressed.
   */
  lemma LabelLag(s: State)
    requires Inv(s) && s.running
    ensures s.button.CancelButton? ==> s.timer - s.current == s.button.elapsed + 1
    ensures ButtonText(s.button) == GiveUpLabel <==> s.timer - s.current > GraceSeconds + 1
    ensures ButtonText(s.button) == "Cancel (10)" ==> Committed(s)
  {
    LabelMeaning(s.timer - s.current - 1);
  }

  // ---------------------------------------------------------------------------
  // Properties of whole sessions

  /** Ticks without a press each take one second off and paint their block, and keep the invariant. */
  lemma {:induction false} RunTicksSpec(s: State, date: string, ds: seq<Draw>)
    requires Inv(s) && s.running && |ds| <= s.current
    ensures var r := RunTicks(s, date, ds);
      && Inv(r) && r.running && r.timer == s.timer && r.current == s.current - |ds|
      && r.log == s.log && r.grid == ApplyDraws(s.grid, ds)
      && r.tag == s.tag && r.desc == s.desc
    decreases |ds|
  {
    if ds != [] {
      var s1 := CountDown(s, date, ds[0]).0;
      TickKeepsInv(s, date, ds[0]);
      RunTicksSpec(s1, date, ds[1..]);
    }
  }

  /**
   * A session of T = minutes * 60 seconds left alone: paint's own first tick
   * and T - 1 scheduled ticks paint exactly T blocks, one per draw, without
   * saving; the (T + 1)-th count_down saves the canvas as it stands, appends
   * one record of `minutes`, and leaves the session idle.
   */
  lemma {:induction false} NaturalExpiry(s: State, minutes: int, date: string, d0: Draw, ds: seq<Draw>, dLast: Draw)
    requires Inv(s) && !s.running && SliderValue(minutes) && |ds| == minutes * 60 - 1
    ensures var s1 := Press(s, minutes, date, d0).0;
      var s2 := RunTicks(s1, date, ds);
      && Inv(s2) && s2.running && s2.current == 0 && s2.log == s.log
      && s2.grid == ApplyDraws(s.grid, [d0] + ds)
    ensures var s2 := RunTicks(Press(s, minutes, date, d0).0, date, ds);
      var (s3, tile) := CountDown(s2, date, dLast);
      && !s3.running && s3.timer == 0
      && s3.log == s.log + [Record(date, minutes, s.tag, s.desc)]
      && s3.grid == ApplyDraws(s.grid, [d0] + ds) && tile == Some(s3.grid)
  {
    var s1 := Press(s, minutes, date, d0).0;
    StartFromIdle(s, minutes, date, d0);
    PressKeepsInv(s, minutes, date, d0);
    RunTicksSpec(s1, date, ds);
    var s2 := RunTicks(s1, date, ds);
    assert ([d0] + ds)[1..] == ds;
    assert ApplyDraws(s.grid, [d0] + ds) == ApplyDraws(PaintCell(s.grid, d0), ds);
    ExpiryTick(s2, date, dLast);
  }
}
