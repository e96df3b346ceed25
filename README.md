# AFM gamepad control: sample binning, H-curve scan and input routing

This project models, in Dafny, the deterministic core of a gamepad-driven
atomic force microscope front end. Two Python files hold that core:
`gamepad_2_7.py` (a Qt window with a serial reader thread) and `plotdata.py`
(an offline viewer).

- **Acquisition** (`read_AFM`, `newimagefile`).
  - Each line from the microcontroller is stripped, split on commas and read
    as three numbers x, y, z.
  - Accepted samples wait in a buffer, and a counter `k` counts them.
  - When `k` exceeds `buferlenght` (3), every buffered sample is binned in
    arrival order into a 1024 × 1024 height map `Z`. Its cell is the nearest
    one on the axes 0..1023, found by `argmin`, so a tie goes to the lower
    index and, over exact reals, values outside the axis are clamped. The cell gets `1024 - z`,
    and the cursor `(idj, idk)` ends on the last sample's cell.
  - After binning, the batch is appended to the session's CSV file.
  - `newimagefile` starts a fresh map of ones, puts the cursor at (0, 0) and
    opens a new file that holds only the header.
- **Replay** (`plotdata.py`). A saved session file is binned again onto a
  fresh map by the same rule. Only rows whose timestamp lies between the
  first row's and the last row's are used.
- **H-curve scan** (`move_H_curve`).
  - The Hilbert-curve L-system (`a → -bF+aFa+Fb-`, `b → +aF-bFb-Fa+`) is
    rewritten for 7 rounds, starting from `a`.
  - A turtle then walks the string. It reads the stage position before each
    symbol. `F` commands a move to that position plus the heading
    `(vx, vy)`, and `+` and `-` turn the heading a quarter turn.
- **Input routing** (`update_gamepad_state`).
  - Every held button that has a `<name>_menu` attribute calls the action its
    menu shows, through an `if/elif` chain.
  - Only the setpoint actions catch their own exceptions. If the instrument
    call of `Aproach`, `interact`, `Withdraw` or `startstop` raises, the poll
    ends there: later buttons, the stick and `self.update()` are skipped.
  - The left stick nudges the imaging offset by 0.5e-6 when it is pushed
    beyond ±0.5, provided the rate guard allows it.

Modules:
- `optional.dfy`: `Option`.
- `seqs.dfy`: generic sequence facts and `Count`.
- `text.dfy`: Python's `str.strip`, `str.split` and `float()` on a field.
- `binning.dfy`: the axis, `argmin`, one cell write, and a grid as a function
  of the rows written.
- `acquisition.dfy`: the line parser and the `Capture` class, which holds the
  grid, the cursor, the buffer, `k` and the file.
- `replay.dfy`: the viewer loop.
- `hcurve.dfy`: the L-system and the turtle.
- `gamepad.dfy`: the button dispatch and the stick rule.

Numbers are exact reals, and timestamps are integers.

## Model

| member | source | states |
|---|---|---|
| Text.Strip | gamepad_2_7.py:250 | `strip()` keeps a middle slice of the line and cuts only whitespace at either end. Nothing is left to strip afterwards. The result is empty exactly when the line is all whitespace. |
| Text.StripKeepsOthers | gamepad_2_7.py:250 | Stripping keeps every non-whitespace character as often as before, so it never removes a comma. |
| Text.StripPadded | gamepad_2_7.py:250 | Stripping undoes any whitespace padding around a trimmed text. |
| Text.StripTrimmed | gamepad_2_7.py:253 | Stripping a field that is already stripped changes nothing. |
| Text.Split | gamepad_2_7.py:253 | `split(',')` gives at least one piece, and no piece contains the separator. |
| Text.SplitCount | gamepad_2_7.py:253-256 | There is one more piece than there are separators. |
| Text.JoinSplit | gamepad_2_7.py:253 | Joining the pieces with the separator gives back the line. |
| Text.SplitJoin | gamepad_2_7.py:253 | Splitting separator-free fields joined by the separator gives back those fields. |
| Text.SplitThree | gamepad_2_7.py:253-256 | Three separator-free fields joined by commas split into exactly those three. |
| Text.NatDigitsValue | gamepad_2_7.py:261-263 | The decimal digits printed for n have the value n. |
| Text.ParseDigits | gamepad_2_7.py:261-263 | `float()` reads a plain run of digits as its decimal value. |
| Text.ParseNegated | gamepad_2_7.py:261-263 | `ParseNumber`, the model of `float()`, reads a minus sign followed by digits as the negated decimal value. |
| Text.ParsePlain | gamepad_2_7.py:261-263 | `ParseNumber` reads a plain run of digits, with no sign, as its decimal value. |
| Text.ParseFormatInt | gamepad_2_7.py:261-263 | `ParseNumber(FormatInt(n)) == n`, that is `float(str(n)) == n`, for every integer n, negative ones included. |
| Text.FormatIntChars | gamepad_2_7.py:261-263 | A printed integer is non-empty, has nothing to strip, and holds only numeral characters, so no comma. |
| Acquisition.Fields | gamepad_2_7.py:253 | A line has one field per comma plus one, and every field is stripped. |
| Acquisition.ParseFields | gamepad_2_7.py:253-279 | A wrong count is reported exactly when there are not 3 fields. Otherwise the first field `float()` refuses is reported, with the fields before it parsed. If none is refused, the three values are those `float()` gives. |
| Acquisition.ParseLine | gamepad_2_7.py:250-279 | A line is skipped exactly when it is all whitespace. A line without exactly two commas is a wrong field count, with the count of its comma-separated fields. Only lines with two commas can give a sample. |
| Acquisition.FieldsOfThree | gamepad_2_7.py:253 | A line that splits into three stripped pieces has those pieces as its fields. |
| Acquisition.StripSampleLine | gamepad_2_7.py:250 | Stripping a padded `a,b,c` line of printed integers leaves exactly `a,b,c`. |
| Acquisition.ParseSampleLine | gamepad_2_7.py:250-264 | Every line printed as three comma-separated integers, with any whitespace padding, is accepted with exactly those three values. |
| Acquisition.Yield | gamepad_2_7.py:250-276 | One line gives at most one sample. |
| Acquisition.Accepted | gamepad_2_7.py:247-276 | A stream gives at most one sample per line. |
| Acquisition.AcceptedSkipsRejected | gamepad_2_7.py:256-279 | A blank, miscounted or unparsable line adds nothing, wherever it sits in the stream. |
| Acquisition.AsRowsAppend | gamepad_2_7.py:299 | Appending two batches one after the other appends the rows of both. |
| Acquisition.LoggedSamples | plotdata.py:12-16 | Reading a file back gives at most one sample per line. |
| Acquisition.SessionFileReadsBack | gamepad_2_7.py:299-301 | A file made of the header and then appended batches reads back as exactly the samples written, and only its first line is a header. |
| Acquisition.Capture.constructor | gamepad_2_7.py:233-245 | The reader starts with an empty buffer, `k = 0`, a grid of ones, the cursor at (0, 0) and a file holding only the header, so the capture invariant holds. |
| Acquisition.Capture.NewImageFile | gamepad_2_7.py:557-612 | A fresh 1024 × 1024 grid of ones, the cursor at (0, 0) and a new file holding only the header. The reader's buffer and `k` carry over unchanged. |
| Acquisition.Capture.Paint | gamepad_2_7.py:289-297 | Binning rows in order leaves every cell as the last row to reach it set it, and cells no row reaches unchanged. The cursor ends on the last row's cell. |
| Acquisition.Capture.Flush | gamepad_2_7.py:282-301 | The whole buffer is binned in arrival order on top of the grid as it was, with no reset, and appended to the file. The buffer is emptied, `k = 0`, and the invariant is restored. |
| Acquisition.Capture.Accept | gamepad_2_7.py:274-301 | An accepted sample is appended to the buffer and counted. When the count passes 3, the buffer including the new sample goes to the file and the grid, and the buffer is emptied. Otherwise nothing else changes. |
| Acquisition.Capture.ReadLine | gamepad_2_7.py:247-301 | A line that gives no sample changes nothing. An accepted line is buffered and counted. When `k` exceeds 3, that is at the fourth buffered sample, the buffer and the new sample go to the file and the grid. No sample is lost or reordered. The file grows by nothing or by one whole block of 4. |
| Acquisition.Capture.Ingest | gamepad_2_7.py:247-301 | After any stretch of the stream, the file's samples followed by the buffer are exactly the samples accepted, in arrival order. The buffer never holds more than 3. It holds exactly the last `Waiting(n)` of them, where `n` counts the samples that were waiting plus those accepted and `Waiting(n)` is `n` mod 4. So the file/buffer split is fixed. |
| Acquisition.WaitingStep | gamepad_2_7.py:276-282 | One more sample advances the waiting count mod 4. The count wraps to 0 exactly when the `k > buferlenght` test would flush. |
| Binning.GridAxis | gamepad_2_7.py:578-580 | The axis is what `np.linspace(0, 1023, 1024)` promises (`IsLinspace`): 1024 values, the first 0, the last 1023, in equal steps of 1023/1023. |
| Binning.LinspaceValues | gamepad_2_7.py:578-580 | On any axis that keeps that promise, value i is exactly i, so the axis positions and the cell indices coincide. |
| Binning.ArgMinDistance | gamepad_2_7.py:294-295 | `argmin` of the distances is the lowest index at the smallest distance. |
| Binning.FirstNearestUnique | gamepad_2_7.py:294-295 | There is only one such lowest nearest index. |
| Binning.NearestGridIndexIsFirstNearest | gamepad_2_7.py:294-295 | On the 0..1023 axis, that index is a clamp followed by rounding with ties going down. |
| Binning.Bin | gamepad_2_7.py:294-295 | Every value gets a cell in 0..1023 and none is turned away. A value ≤ 0 gets cell 0 and a value ≥ 1023 gets cell 1023. Otherwise the value lies within half a unit of its cell. |
| Binning.BinTieGoesDown | gamepad_2_7.py:294-295 | A value exactly halfway between two axis points goes to the lower cell. |
| Binning.BinExample | gamepad_2_7.py:294-297 | The sample (500.4, 10, 24) is written to cell (500, 10) with height 1000. |
| Binning.WriteSample | gamepad_2_7.py:294-297 | The cursor moves to the sample's cell, that cell gets `1024 - z`, and every other cell is unchanged. |
| Binning.PaintedUntouched | gamepad_2_7.py:289-297 | A cell no row reaches keeps its value, which is 1.0 on a fresh grid. |
| Binning.PaintedLastWrite | gamepad_2_7.py:289-297 | In `Painted`, the grid after a sequence of writes, a cell holds the height of the last row that reaches it. |
| Binning.PaintedAppend | gamepad_2_7.py:282-297 | Binning one batch and then another is binning their concatenation, so the grid is not reset between flushes. |
| Binning.CursorAppend | gamepad_2_7.py:289-297 | After two batches, `CursorAfter`, the cursor is where the second batch leaves it, starting from where the first did. |
| Binning.RepeatedWriteIsIdempotent | gamepad_2_7.py:297 | Writing the same sample twice leaves the grid as writing it once: cells are overwritten, not accumulated. |
| Replay.Window | plotdata.py:44-45 | The window filter keeps at most the rows it is given. |
| Replay.WindowMembers | plotdata.py:44-45 | A row is kept exactly when it is in the file and its timestamp lies between the two bounds. |
| Replay.WindowAll | plotdata.py:44-45 | When every timestamp lies within the bounds, nothing is filtered out. |
| Replay.InTimeOrderPlotsAll | plotdata.py:44-45 | A file whose timestamps never go backwards is replayed in full. |
| Replay.ClockWentBackPlotsNothing | plotdata.py:44-48 | If the last timestamp is older than the first, no row is binned and every cell stays 1.0. |
| Replay.ReplayMatchesLive | plotdata.py:40-48 | Replaying a session file bins exactly the samples the live reader binned, in the same order, so both give the same grid. This holds exactly when every sample's timestamp lies between the first one's and the last one's. |
| Replay.WholeFileIffWithinEnds | plotdata.py:40-48 | `Plotted` keeps every row exactly when each timestamp lies between the first row's and the last row's (`WithinEnds`). |
| Replay.PaintWindow | plotdata.py:40-48 | Each row inside [lo, hi] is binned in file order, as in `WriteSample`. The other rows change nothing. |
| Replay.ReplayFile | plotdata.py:28-48 | The map starts as ones and the cursor at (0, 0). The result is the grid and the cursor from binning `Plotted(rows)`, the rows between the first and the last timestamp, in file order. |
| HCurve.RuleACounts | gamepad_2_7.py:191 | The `a` rule has 11 symbols: two a, two b, three F, two `+` and two `-`. |
| HCurve.RuleBCounts | gamepad_2_7.py:193 | The `b` rule has the same tallies. |
| HCurve.ProductionCountAB | gamepad_2_7.py:190-195 | A production writes two a's and two b's for each rule applied, and none for a copied symbol. |
| HCurve.ProductionCountF | gamepad_2_7.py:190-195 | A production writes three F's for each rule applied, and a copied F is kept. |
| HCurve.ProductionCountTurn | gamepad_2_7.py:190-195 | A production writes two of each turn for each rule applied, and a copied turn is kept. |
| HCurve.RewriteLast | gamepad_2_7.py:189-195 | The tallies of a round are those of its front plus those of the last production. |
| HCurve.RewriteCountAB | gamepad_2_7.py:187-196 | After a round there are two a's and two b's for every a and b before it. |
| HCurve.RewriteCountF | gamepad_2_7.py:187-196 | A round keeps the F's and adds three for every a and b. |
| HCurve.RewriteCountTurn | gamepad_2_7.py:187-196 | A round keeps the turns and adds two `+` and two `-` for every a and b. |
| HCurve.RewriteLength | gamepad_2_7.py:187-196 | A round adds ten symbols for every a and b. |
| HCurve.RewriteSymbols | gamepad_2_7.py:187-196 | Rewriting keeps the string within the alphabet a, b, F, `+`, `-`. |
| HCurve.AxiomTallied | gamepad_2_7.py:185 | The axiom `a` is a curve with one rule and no moves. |
| HCurve.RewriteTallied | gamepad_2_7.py:187-196 | A round multiplies the a's and b's by four. It keeps the curve tallies: one F fewer than rules, equal `+` and `-` counts, the length formula, and the alphabet. |
| HCurve.ExpandTallied | gamepad_2_7.py:185-196 | After n rounds there are 4^n a's and b's together and 4^n − 1 F's. There are as many `+` as `-`, and the total is (10·4^n − 7)/3 symbols. |
| HCurve.ScanCounts | gamepad_2_7.py:185-196 | An expansion with 4^n = 16384 a's and b's, the number 7 rounds give, has 16383 F's, 10922 of each turn and 54611 symbols. |
| HCurve.RewriteRound | gamepad_2_7.py:188-196 | One pass over the string replaces every symbol by its `Production` (the `a` rule, the `b` rule, or the symbol itself), in order: the result is `Rewrite` of the string. |
| HCurve.HilbertSequence | gamepad_2_7.py:185-196 | The nested loops build exactly `Expand(7)`, the 7-round expansion of `a`. |
| HCurve.TurnsUndo | gamepad_2_7.py:216-221 | `Turn` by `+` and by `-` undo each other. |
| HCurve.FourTurns | gamepad_2_7.py:204-224 | Four identical symbols leave the heading as it was. |
| HCurve.TurnRotated | gamepad_2_7.py:204-224 | `+` adds a quarter turn, `-` removes one, and any other symbol keeps the heading. |
| HCurve.RotatedStartIsAxisStep | gamepad_2_7.py:178-179 | Any whole number of quarter turns of (4e-6, 0) is one of the four axis steps of length 4e-6. |
| HCurve.HeadingByTurns | gamepad_2_7.py:199-224 | The heading depends only on (number of `+`) − (number of `-`), modulo 4. |
| HCurve.HeadingIsAxisStep | gamepad_2_7.py:178-224 | Whatever has been read, the heading is one of the four axis-aligned vectors of length 4e-6. |
| HCurve.CurveEndsWithStartHeading | gamepad_2_7.py:185-224 | After walking a whole curve the heading is back to (4e-6, 0). |
| HCurve.MovesCount | gamepad_2_7.py:199-214 | `Moves`, the moves the walk commands, has one move per F. |
| HCurve.MovesAreAxisSteps | gamepad_2_7.py:206-214 | Every move's target is the position read plus an axis step of 4e-6. |
| HCurve.Walk | gamepad_2_7.py:199-224 | The walking loop issues exactly the specified moves and ends with the specified heading. |
| HCurve.MoveHCurve | gamepad_2_7.py:175-224 | The scan issues 16383 moves. Each targets the position read plus an axis step of 4e-6, and the heading ends where it began. |
| Gamepad.ComboText | gamepad_2_7.py:642-644 | A combo box always shows one of the registry keys. A key given as default is selected. Any other default leaves `H_curve` showing. |
| Gamepad.CommandsForMembers | gamepad_2_7.py:674-695 | A call is made exactly when the button is held, has a menu, and the chain maps its menu text to that action. |
| Gamepad.PollButtons | gamepad_2_7.py:658-695 | The poll makes the calls of `Fired` in `button_states` order, up to and including the first unguarded call that raises. It reports whether it got through all buttons, and so whether the stick block and `self.update()` run. |
| Gamepad.PollInOrder | gamepad_2_7.py:674-695 | The same loop over any button list: the calls made are the calls for the list, cut off just after the first raising call. |
| Gamepad.PollButton | gamepad_2_7.py:676-695 | One entry: a held button with a menu makes the single call its menu text dispatches to, and otherwise no call. |
| Gamepad.CommandsForPrefix | gamepad_2_7.py:674-695 | The calls for the first buttons come first among the calls for all of them. |
| Gamepad.PollOutcomeUnique | gamepad_2_7.py:125-170 | `PollOutcome` fixes the poll completely. It stops at the first call whose action is not in a `try` (`Unguarded`: Aproach, interact, Withdraw, startstop) and fails, and nowhere else. |
| Gamepad.QuietPollFiresAll | gamepad_2_7.py:125-170 | When no unguarded call fails, the poll makes every call and completes. |
| Gamepad.MenuButtons | gamepad_2_7.py:355-362 | Of the polled buttons, exactly A, B, X and Y have a menu. |
| Gamepad.OnlyFaceButtonsFire | gamepad_2_7.py:658-679 | Only A, B, X and Y ever call anything. Plus, Minus, Home, Capture, L, ZL, R and ZR never do. |
| Gamepad.ItemsDispatch | gamepad_2_7.py:680-695 | Under `Dispatch`, the if/elif chain, of the menu items only `select` calls nothing, and no item calls `select()`. |
| Gamepad.SelectNeverFires | gamepad_2_7.py:680-695 | `select()` is never called from a menu. |
| Gamepad.HeldButtonFiresEveryPoll | gamepad_2_7.py:674-695 | A held button with a dispatchable menu calls its action on every poll; there is no edge detection. |
| Gamepad.HomeIsCapture | gamepad_2_7.py:665-666 | Home and Capture read the same controller index, so they are held together. |
| Gamepad.DefaultMenusValid | gamepad_2_7.py:355-362 | The menus as built belong to the eight controls and each shows a registry key. |
| Gamepad.DefaultFaceTexts | gamepad_2_7.py:355-358 | A, B, X and Y show their default texts. |
| Gamepad.DefaultBindings | gamepad_2_7.py:355-358 | As built: A lowers the setpoint, B raises it, X approaches, and Y starts or stops imaging. |
| Gamepad.NotAnItem | gamepad_2_7.py:174 | `Map` and `Select` are not registry keys. |
| Gamepad.DefaultFallback | gamepad_2_7.py:359-362 | The LB (`Map`) and Select (`Select`) menus start on `H_curve`. |
| Gamepad.JoystickWrites | gamepad_2_7.py:698-717 | The x offset is written exactly when the guard holds, the offsets were read, and `left_x` is beyond ±0.5. The same holds for y with `left_y`. |
| Gamepad.JoystickStep | gamepad_2_7.py:707-715 | `AxisNudge`: a write moves its offset by exactly 0.5e-6, towards the stick on x and against it on y. |
| Gamepad.JoystickMirror | gamepad_2_7.py:707-715 | Mirroring the stick mirrors the nudge. |
| Gamepad.YIsInvertedX | gamepad_2_7.py:707-715 | The y rule is the x rule applied to the inverted axis. |

## Notes on the code as modelled

- **A new file keeps the reader's buffer.** `newimagefile` resets the globals
  `Z`, `idj`, `idk` and the file. The reader's `df1` and `k` are locals of
  `read_AFM` and are not reset, so `Capture.NewImageFile` keeps `buffer` and
  `k`. This only matters if `newimagefile` runs a second time: the program
  calls it once, from `__init__` (gamepad_2_7.py:316), and
  `create_data_menu` (gamepad_2_7.py:617-631), which would connect it to a
  button, is never called.
- **`select()` is unreachable.** The registry key is `select`, but the chain
  compares with `Select`. A combo box can only show registry keys, so
  `select()` is never called. The model states this
  (`Gamepad.SelectNeverFires`) rather than correcting it.
- **Menus only exist for A, B, X, Y, LB, RB, Start and Select.** The poll
  looks menus up under the names in `button_states`, so only A, B, X and Y can
  fire. The LB, RB, Start and Select menus are never consulted.
- **`continue` skips the flush check.** A line with the wrong field count
  skips the flush check. This is harmless, because `k` is at most 3 whenever
  such a line arrives (`Capture.Valid`).

## Left out

- Serial I/O: opening the port, `readline` and `decode()`. A line is given as
  an arbitrary string. With the 0.01 s timeout (gamepad_2_7.py:51),
  `readline()` returns whatever arrived, which may be empty or a partial line.
  Since any string is allowed, that covers a cut-off line that still parses
  with wrong values (`512,300,8` cut from `512,300,812`).
- Decode errors: `UnicodeDecodeError` is a `ValueError`, so the handler at
  gamepad_2_7.py:278 catches it and the pass changes nothing, like a rejected
  line in `Capture.ReadLine`. A decode error on the very first read is not
  modelled: `data` is then unbound, the handler's message raises, and the
  reader thread ends.
- Warning messages: the `print` calls at gamepad_2_7.py:257, 279 and 717 are
  not modelled. Their causes appear only as the `LineOutcome` cases
  (`WrongFieldCount`, `BadNumber`) and as `None` offsets.
- Text.ParseNumber: models `float()` only for finite decimal numerals (sign,
  digits, one `.`, exponent). `inf`, `nan`, `_` digit separators and non-ASCII
  digits are refused by the model but accepted by Python, and binary
  floating-point rounding is replaced by exact reals.
- Binning.Bin: the clamping and nearest-cell results hold over exact reals.
  In numpy's float64 the distances `np.abs(X[0, :] - pos_x)` round to equal
  values for coordinates beyond about 2^53, so `argmin` can pick another cell
  (cell 0 for `pos_x = 1e20`) where the model gives 1023.
- Text.IsSpace: covers the characters Python's `str.isspace()` accepts. Other
  Unicode subtleties, and `decode()` itself, are not modelled.
- Timestamps: `datetime.now()` at acceptance becomes an integer parameter
  `now`. In the viewer, parsing the timestamp column is replaced by integer
  timestamps. Datetime precision and format errors are not modelled.
- Gamepad.JoystickWrites: the rate guard `x.microseconds > 100` and its reset
  of `t1` are an abstract boolean `due`, because their wall-clock meaning
  cannot be modelled. A failing offset read is `None`. A write to the
  instrument that raises after the x write is not modelled: the model writes
  both offsets or neither.
- Instrument calls (nanosurf Studio): position reads in the H-curve walk
  become the parameter `reading`. Moves become the returned `Move` values. The
  actions the dispatch calls (setpoint change, approach, withdraw, imaging
  start/stop, spectroscopy) become `Action` values and are not modelled
  further. Whether such a call raises on a given poll becomes the parameter
  `fails` of `Gamepad.PollButtons`. Only the unguarded actions can end the
  poll this way.
- HCurve: `time.sleep` pacing, and the stage not reaching its targets
  exactly, are not modelled. Each move is stated relative to the position
  read. `vx`, `vy` and the position are exact reals, not floats.
- Threads (`read_AFM` and `H_curve` run concurrently with the GUI). The
  unsynchronised sharing of `Z`, `idj` and `idk` is not modelled. Each
  operation is taken to run atomically.
- pandas mechanics (`DataFrame`, `concat`, `to_csv`, `read_csv`) are modelled
  as an appended sequence of `LogLine`s and a read-back function. The NaN row
  `newimagefile` builds but never writes is omitted.
- Qt, matplotlib and pygame: widgets, timers, drawing, `ndimage.rotate`,
  controller set-up and the right stick. Button and axis readings are
  parameters (`held`, `leftX`, `leftY`). A combo box is taken to be truthy
  once it exists.
- The replay viewer's file dialog and plotting.
- Acquisition.LoggedSamples: skips a header line wherever it stands. `pd.read_csv`
  (plotdata.py:12) would read a header after the first line as a data row of
  text, and the replay's arithmetic on it would fail. Files the reader writes
  have the header only as their first line (`Acquisition.SessionFileReadsBack`),
  so the case does not arise for them.
