# Kamvas session machine in Dafny

Kamvas is a Pomodoro-style "painting ritual" timer. The user picks a duration
(25 to 240 minutes in steps of 5) and presses **Paint**. Every second a random
16x16 block of a 128x128 canvas gets a random colour. Pressing the button
again cancels the session. If more than 10 seconds have elapsed, the cancel
commits: the canvas is stained black, an 8x8 thumbnail is saved and a
session record `{date, timer, tag, desc}` is appended to the stored list.
Otherwise it aborts and nothing is recorded. A session left to run to its
end commits too.

This project models the `Kamvas` class of `kamvas.py` without its widgets:
the running flag (`clock`), `timer`, `current_timer`, the canvas, the stored
session list, and what the button and title label show.

- `options.dfy` — `Option`, for Python's `None`.
- `canvas.dfy` (module `Canvas`) — colours, the 8x8 grid of block colours,
  painting one block, and what a run of paints leaves in each block.
- `display.dfy` (module `Display`) — `str()` of a non-negative int, the
  two-digit padding, the `mm:ss` countdown text, and the button and title
  texts. Each has a parser, with a round-trip lemma showing that the text
  determines the value it shows.
- `session.dfy` (module `Session`) — the session machine as values. A
  `State` holds all of the object's fields. `CountDown`, `Press` (paint),
  `StopPainting`, `SaveSession`, `ResetCanvas`, `StainCanvas` and
  `GeneratePixel` are functions from the old state to the new one. The
  lemmas state what ticks, cancels and whole sessions do.
- `kamvas.dfy` (module `Kamvas`) — the `Kamvas` class. It keeps the canvas as
  a 128x128 `array2` that `GeneratePixel` pastes into in place, and it fills
  the thumbnail with nested loops. Each method is proved to move the object
  from `State()` to the state that the matching `Session` function gives.
  Its invariant `Valid()` says every pixel has its block's colour and that
  `Session.Inv` holds.

The randomness, the clock and storage are inputs. Each tick takes a
`Draw` (block coordinates 0..7 and three channels 0..255), and each save
takes the date string. The stored list is passed to the constructor.

The model follows `kamvas.py` in these places, where a tidier description of
the app would differ:

- A session that runs to its end saves the canvas as it stands. It is neither
  stained nor reset, so the painted canvas carries over into the next session.
  The save happens on the (T+1)-th `count_down` call of a T-second session,
  the call that finds nothing remaining.
- `count_down` computes the button label before it decrements
  `current_timer`. So the label is one second behind the elapsed time that
  `paint` tests. A button reading "Cancel (10)" commits when pressed, and
  "Give up" first appears when 12 seconds have elapsed (`Session.LabelLag`).
- `stop_painting` does not reset `current_timer`. While idle, the only
  guarantee is `timer == 0`.
- The abort path resets the canvas twice. The model does the same, and
  `Session.ResetIdempotent` shows the second reset changes nothing.

## Model

| member | source | states |
|---|---|---|
| `Kamvas.Kamvas.constructor` | kamvas.py:11-61 | `__init__` followed by `setup`: a new object is idle with timer 0, the button showing "Paint", the title showing the app's name, tag "Empty", desc "...", an all-white 128x128 canvas and the given stored list; the invariant holds |
| `Kamvas.Kamvas.Paint` | kamvas.py:67-87 | The action button moves the object exactly as `Session.Press` says, keeps the invariant, leaves the canvas either the same image or a new one (never one the caller already holds), and returns the thumbnail it saved (an 8x8 image) exactly when the press committed |
| `Kamvas.Kamvas.StopPainting` | kamvas.py:89-94 | Clears the running flag, sets timer to 0 and the labels back to "Paint" and the title; the canvas and everything else are untouched |
| `Kamvas.Kamvas.CountDown` | kamvas.py:96-122 | One tick moves the object exactly as `Session.CountDown` says and paints into the same canvas image, from a running session or paint's first call; the invariant holds afterwards; a thumbnail is returned exactly when the tick ended the session |
| `Kamvas.Kamvas.ResetCanvas` | kamvas.py:142-143 | The canvas is replaced by a fresh image whose every one of the 128x128 pixels is white |
| `Kamvas.Kamvas.StainCanvas` | kamvas.py:145-146 | The canvas is replaced by a fresh image whose every pixel is black |
| `Kamvas.Kamvas.GeneratePixel` | kamvas.py:148-158 | Pixels inside the drawn 16x16 box at (16x, 16y) take the drawn colour; every other pixel keeps its old value; the block invariant is kept |
| `Kamvas.Kamvas.SaveSession` | kamvas.py:169-191 | Returns a fresh 8x8 tile whose pixel (i, j) is canvas pixel (16i, 16j); appends exactly one record (date, timer / 60, tag, desc) to the list; leaves the canvas alone |
| `Kamvas.NewCanvas` | kamvas.py:143 | `Image.new` of one colour: a fresh 128x128 image with every pixel that colour, hence every block too |
| `Canvas.Filled` | kamvas.py:142-146 | A one-colour image has that colour in all 64 blocks |
| `Canvas.PaintCell` | kamvas.py:154-158 | Painting a block gives that block the drawn colour and keeps every other block's colour |
| `Canvas.CellAfterDraws` | kamvas.py:148-158 | After any run of paints, a block no draw touched keeps its colour, and a touched block shows the colour of the last draw that touched it |
| `Display.NatToStringDigits` | kamvas.py:112 | `str(n)` for n >= 0 is a non-empty string of digits with no leading zero |
| `Display.NatToStringRoundTrip` | kamvas.py:112 | Reading the digits of `str(n)` back gives n |
| `Display.NatToStringLength` | kamvas.py:100-104 | `str(n)` has 1 digit below 10, 2 below 100 and at least 3 from 100 on |
| `Display.PadFacts` | kamvas.py:100-104 | A padded field reads back as its value; it is exactly two characters below 100, and from 100 on it is `str(n)` in full |
| `Display.ClockTextRoundTrip` | kamvas.py:97-106 | The countdown text reads back as floor(current / 60) minutes and current mod 60 seconds, so distinct remaining times show distinct texts |
| `Display.ClockTextShape` | kamvas.py:97-106 | The seconds field is always two characters after the colon; the text is five characters below 100 minutes, and the minutes are printed in full from 100 on |
| `Display.ButtonTextRoundTrip` | kamvas.py:109-112 | Each button text ("Paint", "Cancel (n)", "Give up") reads back as the button it came from |
| `Display.TitleTextRoundTrip` | kamvas.py:94-106 | Each title text (the app's name, or an mm:ss countdown) reads back as the title it came from |
| `Session.Initial` | kamvas.py:11-56 | The state after construction is idle, white, holds the stored list, and satisfies the invariant |
| `Session.LabelMeaning` | kamvas.py:109-112 | The label computed for `elapsed` seconds is "Give up" exactly when elapsed > 10; otherwise it is "Cancel (" + str(elapsed) + ")", so elapsed = 10 still gives "Cancel (10)" |
| `Session.TickKeepsInv` | kamvas.py:96-122 | A tick from a running session, or paint's first tick, leaves a state where 0 <= current < timer while running and the labels match the invariant |
| `Session.PressKeepsInv` | kamvas.py:67-94 | A press, whether it starts, commits or aborts, keeps the invariant |
| `Session.StartFromIdle` | kamvas.py:67-73 | Paint from idle sets timer to slider * 60; its first count_down leaves current = timer - 1, running, exactly the drawn block painted, the list unchanged, the button reading "Cancel (0)" and the title the full duration |
| `Session.TickStep` | kamvas.py:108-118 | A tick with time left takes exactly one second off, stays running with 0 <= current <= timer, paints the drawn block, and changes no other block and not the list |
| `Session.ExpiryTick` | kamvas.py:119-122 | The tick that finds nothing remaining appends one record of timer / 60 minutes, returns the canvas as it stands as the thumbnail, leaves the canvas as it is (not stained or reset), and goes idle |
| `Session.CancelOutcome` | kamvas.py:75-94 | A press while running ends idle with timer 0 and an all-white canvas. With elapsed > 10 it appends exactly one record with the session's slider minutes and saves an all-black thumbnail. Otherwise the list is unchanged and nothing is saved |
| `Session.ResetIdempotent` | kamvas.py:142-143 | Resetting the canvas twice gives the same state as resetting it once: all white |
| `Session.SaveAppends` | kamvas.py:181-191 | Saving yields the old list with one new record at the end; earlier records keep their values and order |
| `Session.LabelLag` | kamvas.py:109-115 | While running, a "Cancel (n)" button means n + 1 seconds have elapsed; "Give up" shows exactly when more than 11 have; a button reading "Cancel (10)" commits when pressed |
| `Session.RunTicksSpec` | kamvas.py:108-118 | k ticks without a press, with at least k seconds left, take exactly k seconds off, keep the list and the invariant, and leave the grid equal to the k draws applied in order |
| `Session.NaturalExpiry` | kamvas.py:67-122 | Left alone, a session of T = minutes * 60 seconds paints exactly T blocks in T count_down calls without saving. The (T+1)-th call appends one record of `minutes`, saves the painted grid as the thumbnail, leaves that grid on the canvas, and goes idle |
| `Kamvas.PaintTickCancel` | kamvas.py:67-122 | One window, driven through its own methods: Paint at 25 minutes, n more ticks, Paint again. The second press commits exactly when n >= 10, since paint's own first tick makes 11 seconds elapsed. Then the list is one 25-minute record with tag "Empty" and desc "...", and the thumbnail is all black. Otherwise the list stays empty and nothing is saved |

## Left out

- The tkinter window, widgets, layout, icons and `mainloop` (kamvas.py:12, 28-64; `setup` is folded into the constructor) and `update_canvas` (kamvas.py:160-163): user interface only. The button and title label are kept as the value they show (`Display.Button`, `Display.Title`), and `ButtonText`/`TitleText` give the exact strings.
- The pygame sounds (kamvas.py:29, 125-139): foreign audio calls with no effect on the state.
- `window.after` / `after_cancel` (kamvas.py:90, 114): the scheduled tick is the `running` flag, and each tick is an explicit `CountDown` call.
- The slider widget (kamvas.py:60, 69): its value is the `minutes` parameter of `Paint`, required to be one the slider can show (25 to 240 in steps of 5).
- `random.randint` (kamvas.py:149-155): the block and the colour are a `Draw` parameter; the uniform distribution is not modelled.
- `datetime.now().strftime` (kamvas.py:177): the date string is a parameter.
- `json.load`/`json.dump` of `data/data.json`, `read_sessions` and the PNG save (kamvas.py:166-167, 179, 181, 190-191): the stored list is an in-memory sequence, and the thumbnail is returned instead of written. A file changed by another program between saves, and I/O failures, are not modelled.
- The module-level startup (kamvas.py:193-195).
- `math.floor(current_timer / 60)` (kamvas.py:97) is integer division in the model, which agrees because `current_timer` is never negative.
- `Kamvas.Kamvas.SaveSession`: the record's minutes are `int(timer / 60)` with float division in Python. The model uses integer division. The two agree for every timer the code can hold (0 to 14400 seconds).
