# Event-camera viewer and display loop, modelled in Dafny

This project models the logic of two small event-camera programs:

- `metavision_simple_viewer.py`, a live viewer for Prophesee event cameras. It reads sensor biases from a text file of `value%name` lines. It decides whether its input is a live camera or a recording on disk. It runs an event loop that a keyboard callback stops when Escape or Q is pressed.
- `display.py`, a UDP event-frame display. It keeps one `res_x × res_y × 3` buffer, overwrites channel 1 with every frame read from the stream, and shows the buffer transposed to `res_y × res_x × 3`, resized to the scaled resolution.

The model has five modules:

- `Wrappers` (`wrappers.dfy`): `Option` and `Result`.
- `PyStr` (`pystr.dfy`): the Python string built-ins the bias parser uses.
  - `str.startswith`.
  - `str.split` with a one-character separator.
  - `str.strip()` with Python's full `isspace` character set.
  - `int()` of a string: surrounding whitespace, an optional sign, then ASCII digits. The whitespace `int()` skips is a smaller set than `str.strip()` removes: the separator controls U+001C..U+001F are not skipped. Both strips share one definition, parameterised by the whitespace set.
  - `str()` of an integer, as the inverse used in round-trip lemmas.
- `Biases` (`biases.dfy`): `get_biases_from_file`.
  - `GetBiasesFromFile` is the loop itself.
  - It is proved equal to a recursive reference definition, `BiasesFromFile`, over the outcome of each line.
  - Lemmas describe success, failure, keys, last-wins and comment lines.
  - The file is the sequence of lines Python yields, each line with its terminator. A file that cannot be opened is `None`.
- `Viewer` (`viewer.dfy`): `is_live_camera` over an abstract set of existing paths, and the choice of iterator it drives.
  - A `Window` class holds the close flag.
  - The keyboard callback and `poll_and_dispatch` change that flag in place.
  - `RunEventLoop` is the `for evs in mv_iterator` loop. It is proved against `Processed`, the batches handled up to the first pass on which a close key arrived.
- `Display` (`display.dfy`): the display loop.
  - `new_l`/`new_w` are computed through `math.ceil`.
  - The zero buffer is an `array3<real>`.
  - `WriteChannel1` writes channel 1 in place.
  - `Transpose` is `transpose(1, 0, 2)`.
  - `DisplayLoop` runs the first `|frames|` passes of `while True` and returns the resize-and-show calls they make.

Behaviour of the source that is easy to misread:

- **Order of failures in a line.** In `biases[split[1].strip()] = int(split[0])`, Python evaluates `int(split[0])` before the subscript `split[1]`. So a non-comment line without `%` raises `ValueError` when its text is not an integer. This includes the blank line `"\n"`. It raises `IndexError` only when its text is an integer, such as `"123\n"`.
- **`biases` on open failure.** `biases` is initialised to `{}` before the `try` (line 45). A file that cannot be opened therefore yields an empty map, not an unbound name.
- **`os.path.exists("")`** is false, so the empty default input always counts as a live camera.
- **Channels 0 and 2 of the display buffer** are never written after `np.zeros`. They stay zero on every pass, and nothing from an earlier frame survives into a later image.

## Model

| member | source | states |
|---|---|---|
| PyStr.Strip | metavision_simple_viewer.py:60 | definition of `strip()`, also used for the whitespace `int()` skips; its properties are the `StripSpec`, `StripPadded` and `StripIdempotent` rows |
| PyStr.LStripSpec | metavision_simple_viewer.py:60 | `lstrip()` keeps a suffix, drops only whitespace, and the kept text does not start with whitespace |
| PyStr.RStripSpec | metavision_simple_viewer.py:60 | `rstrip()` keeps a prefix, drops only whitespace, and the kept text does not end with whitespace |
| PyStr.StripSpec | metavision_simple_viewer.py:60 | the result of `strip()` is empty or starts and ends with non-whitespace |
| PyStr.StripPadded | metavision_simple_viewer.py:60 | `strip()` removes exactly any whitespace padding around text that has non-whitespace ends |
| PyStr.StripIdempotent | metavision_simple_viewer.py:60 | stripping twice is stripping once |
| PyStr.SplitFieldsSeparatorFree | metavision_simple_viewer.py:59 | no field of `split("%")` contains `%`; there is a single field exactly when the line has no `%` |
| PyStr.Split | metavision_simple_viewer.py:59 | `split("%")` always returns at least one field |
| PyStr.SplitWithoutSeparator | metavision_simple_viewer.py:59 | a line without `%` splits into the one field holding the whole line |
| PyStr.JoinSplit | metavision_simple_viewer.py:59 | joining the fields with the separator gives back the line |
| PyStr.SplitJoin | metavision_simple_viewer.py:59 | splitting a join of separator-free fields gives back the fields |
| PyStr.SplitConcat | metavision_simple_viewer.py:59 | `(a + "%" + b).split("%")` is `[a]` followed by the fields of `b` when `a` holds no `%` |
| PyStr.DigitsRoundTrip | metavision_simple_viewer.py:60 | the decimal digits of a natural number read back as that number |
| PyStr.ParseSignedRoundTrip | metavision_simple_viewer.py:60 | the model's `int()` reads back what the model's `str()` writes, for every integer, negatives included; no digit-count limit applies in the model |
| PyStr.ParseIntRoundTrip | metavision_simple_viewer.py:60 | the model's `int()` accepts `str(n)` padded with any whitespace `int()` skips (not U+001C..U+001F) and returns `n`, for any number of digits |
| PyStr.ParseInt | metavision_simple_viewer.py:60 | definition of `int()` on a string; its properties are the round-trip and rejection rows |
| PyStr.ParseIntAllSpace | metavision_simple_viewer.py:60 | `int()` rejects a string that is empty or made only of `str.isspace()` characters |
| PyStr.ParseIntSeparatorControl | metavision_simple_viewer.py:60 | `int()` rejects text starting with U+001C..U+001F, which `strip()` would remove |
| Biases.ParseLine | metavision_simple_viewer.py:54-60 | a line is skipped exactly when it starts with `%` |
| Biases.BiasesFromFile | metavision_simple_viewer.py:41-61 | reference definition of the whole function; the `ParseLines*`, `CommentLineSkipped` and `ExampleBiasFile` rows state its properties |
| Biases.GetBiasesFromFile | metavision_simple_viewer.py:41-61 | the loop returns exactly the reference result `BiasesFromFile`; an unopenable file gives the empty map |
| Biases.AccumulateStep | metavision_simple_viewer.py:51-60 | one more pass skips a comment, adds or overwrites one entry, or raises with that line's index |
| Biases.FailureEscapes | metavision_simple_viewer.py:51-60 | once a line has raised, no later line changes the outcome |
| Biases.AccumulateSucceeds | metavision_simple_viewer.py:51-61 | the loop finishes without an exception exactly when no line raises |
| Biases.AccumulateFailure | metavision_simple_viewer.py:51-60 | an escaping exception is the one raised by the first raising line, with that line's index |
| Biases.AccumulateKeys | metavision_simple_viewer.py:60 | on success the keys are exactly the names of the entry lines |
| Biases.AccumulateLastWins | metavision_simple_viewer.py:60 | a name's value comes from its last entry line |
| Biases.CommentAddsNothing | metavision_simple_viewer.py:54-55 | a comment inserted anywhere changes neither success nor the resulting map |
| Biases.ParseLinesKeys | metavision_simple_viewer.py:51-61 | parsing succeeds iff no line raises; then every non-comment line is an entry and the keys are the entry names |
| Biases.ParseLinesFailure | metavision_simple_viewer.py:51-60 | a failed parse reports the first raising line and whether it raised `ValueError` or `IndexError` |
| Biases.ParseLinesLastWins | metavision_simple_viewer.py:60 | of several lines naming a bias, the last one sets its value |
| Biases.CommentLineSkipped | metavision_simple_viewer.py:53-55 | a line starting with `%` anywhere in the file leaves the parse unchanged |
| Biases.EntryLine | metavision_simple_viewer.py:59-60 | `v%name` followed by nothing or another `%` field maps `strip(name)` to `int(v)` |
| Biases.NoSeparatorLine | metavision_simple_viewer.py:59-60 | a line without `%` raises `IndexError` if its text is an integer, `ValueError` otherwise |
| Biases.BlankLineRaises | metavision_simple_viewer.py:59-60 | a blank line raises `ValueError` |
| Biases.RejectedValueRaises | metavision_simple_viewer.py:59-60 | a value field that `int()` rejects, such as `abc` or `1a`, raises `ValueError` whatever follows the `%` |
| Biases.BlankValueRaises | metavision_simple_viewer.py:60 | a whitespace-only value field raises `ValueError` |
| Biases.SeparatorControlValueRaises | metavision_simple_viewer.py:59-60 | a value field starting with U+001C..U+001F raises `ValueError` |
| Biases.DecimalEntryLine | metavision_simple_viewer.py:59-60 | under the model's `int()` and `str()`, the line `str(v) + "%" + name + "\n"` maps `name` to `v`, for any number of digits |
| Biases.ExampleBiasFile | metavision_simple_viewer.py:41-61 | three `value%name` lines around a comment give the map of those three biases, for any names and any natural values (no digit-count limit, as in the model's `int()`) |
| Viewer.IsLiveCamera | metavision_simple_viewer.py:63-69 | definition of `is_live_camera`; its properties are the next two rows |
| Viewer.EmptyPathIsLive | metavision_simple_viewer.py:63-69 | the empty input path means a live camera whatever exists on disk |
| Viewer.LiveIffNotOnDisk | metavision_simple_viewer.py:69 | a string input is live exactly when it is empty or names nothing on disk |
| Viewer.ChooseIterator | metavision_simple_viewer.py:101-102 | the replay wrapper is chosen exactly for a non-string input or an existing non-empty path |
| Viewer.Window.constructor | metavision_simple_viewer.py:105-106 | a new window does not ask to close |
| Viewer.Window.SetCloseFlag | metavision_simple_viewer.py:109 | after `set_close_flag()` the window should close |
| Viewer.KeyboardCallback | metavision_simple_viewer.py:107-109 | the flag becomes set exactly when the key is Escape or Q, whatever the scancode, action and modifiers; otherwise it is unchanged |
| Viewer.PollAndDispatch | metavision_simple_viewer.py:125 | after dispatching, the flag is set iff it was set before or some pending event was Escape or Q |
| Viewer.ProcessedStopsAtFirstClose | metavision_simple_viewer.py:123-129 | the processed batches are a prefix of the input, up to and including the first pass with a close key, and all of it when there is none |
| Viewer.RunEventLoop | metavision_simple_viewer.py:123-129 | the loop processes exactly the batches of the reference `Processed` |
| Display.Ceil | display.py:24-25 | `math.ceil` returns the least integer not below its argument |
| Display.CeilOfInteger | display.py:24-25 | the ceiling of an integer is that integer |
| Display.OutputSize | display.py:24-25 | definition of `(new_l, new_w)`; its value is the next row |
| Display.OutputSizeIsProduct | display.py:24-25 | `new_l == res_x * scale` and `new_w == res_y * scale` |
| Display.DefaultOutputSize | display.py:14-25 | with the default arguments the output is 1280 × 720 |
| Display.Transpose | display.py:38 | `transpose(1, 0, 2)` has shape `d1 × d0 × d2` and `r[j][i][c] == t[i][j][c]` |
| Display.TransposeInvolution | display.py:38 | transposing twice gives the image back |
| Display.Composed | display.py:30-37 | the buffer after a write has shape `res_x × res_y × 3` |
| Display.ImageOf | display.py:37-38 | the image shown has shape `res_y × res_x × 3` |
| Display.ImageOfPixels | display.py:30-38 | pixel `(y, x)` of the image is `[0, frame[x][y], 0]` |
| Display.ImageOfTransposesBack | display.py:38 | transposing the image back recovers the buffer |
| Display.ImageOfInjective | display.py:37-38 | the shown image determines the frame that was read |
| Display.Zeros | display.py:30 | a fresh `res_x × res_y × 3` buffer of zeros |
| Display.WriteChannel1 | display.py:37 | channel 1 is overwritten with the frame; channels 0 and 2 are unchanged |
| Display.SnapshotIsComposed | display.py:30-37 | a buffer with zero channels 0 and 2 and the frame in channel 1 is the composed buffer |
| Display.DisplayLoop | display.py:30-40 | pass `k` shows the transpose of the buffer composed from the `k`-th frame alone, at the scaled size; the buffer keeps its shape and channels 0 and 2 stay zero on every pass |

## Left out

- Camera SDK calls are not modelled: device discovery and opening, `get_i_ll_biases`, applying the parsed biases with `set`, the events iterators, the frame generator and the window's rendering. An event batch is an opaque value.
- aestream's UDP input, torch's `.numpy()` and OpenCV's `namedWindow`, `resize`, `imshow` and `waitKey` are not modelled. The display loop returns the image and the size it would pass to `resize`.
- The `INTER_AREA` interpolation is floating-point image resampling and is left out.
- Command-line parsing with `argparse` is left out. Its defaults appear as the empty input path and the constants for scale 1 and resolution 1280 × 720. The UDP port only reaches the stream, which is not modelled.
- `print` messages are left out. So are the window title and the doubled window size.
- Display.DisplayLoop: models the first `|frames|` passes of the endless `while True`. It assumes every frame read has exactly the declared `res_x × res_y` shape. NumPy raises for a frame whose shape does not broadcast to `res_x × res_y`. Smaller shapes that do broadcast, such as `(1, res_y)`, `(res_y,)` or a scalar, are accepted by the source and are not modelled. Negative resolutions make `np.zeros` raise and are excluded by the `nat` types.
- Display.DisplayLoop: still returns show calls when `scale <= 0` or a resolution is 0. In the source, `cv2.resize` raises on the first pass for an empty output or input size, so no image would be shown.
- PyStr.ParseInt: accepts only whitespace, an optional sign and ASCII digits. Python's `int()` also accepts `_` between digits and non-ASCII decimal digits; the model rejects those.
- PyStr.ParseInt: accepts any number of digits. CPython raises `ValueError` above `sys.get_int_max_str_digits()` digits, 4300 by default since 3.11 and the 3.7.14, 3.8.14, 3.9.14 and 3.10.7 security releases. The limit depends on the interpreter version and its configuration, so it is not modelled. `str()` of an integer with more digits raises in the same way, which `IntToString` does not model either.
- Biases.GetBiasesFromFile: only an `IOError` on opening is caught, as in the source. A decoding error while reading lines would also escape the function, and that case is not modelled.
- Viewer.RunEventLoop: the window manager's own close button, which also sets the close flag, is not modelled. Key events are assumed to reach the callback only during `poll_and_dispatch`, one group per pass.
