# deno-minifb bindings: a Dafny model

This project models the logic in the TypeScript and JavaScript layer of the
deno-minifb bindings. That layer wraps the native minifb windowing library.
The model covers three parts:

- **The window object** (`MfbWindow`, src/minifb.ts), in module `Minifb`. A
  window is Open while it holds a native handle. `close` makes it Closed.
  Every member except `getMouseButton` and `getKey` starts with a handle
  check, and on a Closed window that check throws "Window handle is closed".
  `update` and `updateEvents` pass the native status code through
  `unwrapUpdateState`. That function maps the code to `true`, to `false` or to
  a thrown error. The native library is an oracle: a `Native` record of
  functions that return arbitrary values of their declared C result types.
  `mfb_get_monitor_scale` is declared `void`; its oracle is the float it
  stores through its first out-pointer.
  Each operation returns three things: the window afterwards, how the call
  ended (`Returned` or `Threw`), and the list of native calls it made. "Throws
  before reaching the native layer" therefore means the list is empty.
  `Run` executes a script of calls so that lemmas can range over sequences of
  operations.
- **The marshalling helpers** (src/ffi.ts), in module `Ffi`. `cstr` allocates a
  zero-filled buffer of `str.length + 1` bytes and fills it with
  `TextEncoder.encodeInto`. `str.length` counts UTF-16 code units. The model
  of `encodeInto` writes the longest run of whole leading characters whose
  UTF-8 encoding fits. For ASCII titles the buffer is the character codes
  followed by one NUL. For any other title the buffer is too short for the
  text plus a terminator. `CStrCompleteIffAscii` proves this "iff", and
  `CStrUnterminatedExample` shows a title with no NUL at all.
  `Boolean(n)` on the native `u8` results is true exactly when `n != 0`.
- **The sprite-sheet animation** (class `Animation` in
  examples/canvas_cross.js), in module `SpriteAnimation`. The model covers the
  precomputed frame table, the clock-driven frame index
  `Math.floor(time / speed) % frames.length`, and the size of the destination
  rectangle.

JavaScript number semantics are written out in module `JsNumber`:
- `Math.floor` of a quotient
- the remainder operator `%`, whose result takes the sign of the dividend
- the decimal text that the template literal in "Unknown error: ${state}" produces

Modules `Outcomes` (optional arguments, returned or thrown results) and
`JsNumber` are shared by the three model modules.

Native calls and values are modelled as follows:

- Native calls go through the `Native` oracle, which is passed as a parameter.
- The `STATE_*` constants are an explicit `StateCodes` parameter, because
  their values are defined in src/constants.ts, which is not part of this
  model. `unwrapUpdateState` compares against the constants in `switch` order,
  so it is total even if two of them coincide. The lemmas that need five
  different codes assume `Distinct()`.
- Floating-point results (monitor scale, scroll offsets) are opaque 32-bit
  patterns that are never computed with. The vertical monitor scale is the
  0 that `new Float32Array(2)` starts with: the view handed to native code
  for it, `subarray(4, 8)`, clamps to an empty view. Those offsets look like
  byte offsets used as element indices.
- `drawImage` is represented only by the arguments it would receive.

## Model

| member | source | states |
|---|---|---|
| Minifb.UnwrapUpdateState | src/minifb.ts:41-61 | `true` exactly for `STATE_OK`; `false` exactly for `STATE_EXIT`; any other code throws. With distinct constants the three known error codes give "Invalid window handle", "Invalid buffer" and "Internal error". Any code that is none of the constants gives "Unknown error: " followed by the code |
| Minifb.UnknownErrorNamesCode | src/minifb.ts:58-59 | the unknown-status message is the fixed prefix followed by text that parses back to the status code |
| Minifb.UnwrapInjective | src/minifb.ts:41-61 | with distinct constants, two status codes that decode to the same outcome (same value or same message) are equal |
| Minifb.UnknownMessageIsNotFixed | src/minifb.ts:49-59 | an unknown-status message never equals one of the fixed messages, nor the closed-handle message |
| Minifb.UnwrapNeverClosed | src/minifb.ts:41-61 | no status code decodes to "Window handle is closed" |
| JsNumber.DecimalRoundTrip | src/minifb.ts:59 | the decimal text interpolated for a code parses back to that code |
| JsNumber.IntToDecimal | src/minifb.ts:59 | `${state}` for an integer: a leading minus exactly for negative values, then decimal digits with no leading zero (except for 0 itself) |
| Minifb.NewWindow | src/minifb.ts:68-72 | a new window is Open, with the handle returned by `mfb_open_ex` on `cstr(title)` and `flags` (default 0). An ASCII title reaches native code as its codes plus NUL. The stored mouse-button and key views are the results of `mfb_get_mouse_button_buffer` and `mfb_get_key_buffer` on that handle |
| Minifb.NewWindowDefaultFlags | src/minifb.ts:68 | omitting `flags` is the same as passing 0 |
| Minifb.Update | src/minifb.ts:80-85 | leaves the window unchanged. Closed: throws before any native call. Open: one call to `mfb_update_ex` on the handle with the buffer and size, and the result is `unwrapUpdateState` of its status |
| Minifb.UpdateEvents | src/minifb.ts:87-90 | as `update`, with one call to `mfb_update_events` |
| Minifb.SetViewport | src/minifb.ts:92-95 | gated. On an Open window it makes one call to `mfb_set_viewport` with the handle and the rectangle, discards the native result and returns `undefined` |
| Minifb.MonitorScale | src/minifb.ts:97-100 | gated. On an Open window it makes one call to `mfb_get_monitor_scale` and returns the pair of the stored horizontal scale and 0: the second view is empty, so `scale[1]` is never written |
| Minifb.Active | src/minifb.ts:102-105 | gated. On an Open window it makes one call to `mfb_is_window_active`, never throws, and returns true exactly when the native `u8` is nonzero |
| Minifb.Width | src/minifb.ts:107-110 | gated. On an Open window it makes one call to `mfb_get_window_width` and returns its value |
| Minifb.Height | src/minifb.ts:112-115 | gated. On an Open window it makes one call to `mfb_get_window_height` and returns its value |
| Minifb.MouseX | src/minifb.ts:117-120 | gated. On an Open window it makes one call to `mfb_get_mouse_x` and returns its value |
| Minifb.MouseY | src/minifb.ts:122-125 | gated. On an Open window it makes one call to `mfb_get_mouse_y` and returns its value |
| Minifb.MouseScrollX | src/minifb.ts:127-130 | gated. On an Open window it makes one call to `mfb_get_mouse_scroll_x` and returns its float |
| Minifb.MouseScrollY | src/minifb.ts:132-135 | gated. On an Open window it makes one call to `mfb_get_mouse_scroll_y` and returns its float |
| Minifb.GetMouseButton | src/minifb.ts:137-139 | never throws, Open or Closed. The result is whether the button's byte in the mouse-button view is nonzero |
| Minifb.GetKey | src/minifb.ts:141-143 | never throws, Open or Closed. The result is whether the key's byte in the key view is nonzero |
| Minifb.WaitSync | src/minifb.ts:145-148 | gated. On an Open window it makes one call to `mfb_wait_sync`, never throws, and returns true exactly when the native `u8` is nonzero |
| Minifb.Close | src/minifb.ts:150-154 | afterwards the window is Closed. Open: one native close on the handle, and `undefined` is returned. Closed: throws and makes no native call |
| Minifb.ClosedWindowRejectsGatedCalls | src/minifb.ts:74-154 | on a Closed window every gated member throws "Window handle is closed", makes no native call and leaves the window unchanged |
| Minifb.ClosedErrorIffClosed | src/minifb.ts:74-78 | a call throws "Window handle is closed" if and only if the window is Closed and the member is gated |
| Minifb.UngatedCallsIgnoreHandle | src/minifb.ts:137-143 | `getMouseButton` and `getKey` read one byte through their view and return whether it is nonzero, whatever the window's state |
| Minifb.OpenWindowForwardsGatedCalls | src/minifb.ts:80-154 | on an Open window a gated member makes exactly one native call: its own symbol (the member-to-symbol table `Symbol`) on the window's handle. Every gated member except `update` and `updateEvents` returns without throwing |
| Minifb.OpenUpdateDecodesStatus | src/minifb.ts:80-90 | on an Open window, `update` and `updateEvents` return exactly `unwrapUpdateState` of the native status |
| Minifb.OnlyCloseChangesWindow | src/minifb.ts:80-148 | every member other than `close` leaves the window, and so its Open/Closed state, unchanged |
| Minifb.RunStaysOpenIffNoClose | src/minifb.ts:150-154 | after any script, the window is Open if and only if it started Open and the script contains no `close` |
| Minifb.StepCloseCount | src/minifb.ts:80-154 | a single call makes a native close exactly when it is `close` on an Open window; `close` leaves the window Closed and every other call leaves it unchanged |
| Minifb.NativeCloseAtMostOnce | src/minifb.ts:150-154 | over any script the native close runs at most once. It never runs if the window started Closed |
| Minifb.ClosedWindowOnlyReadsViews | src/minifb.ts:74-154 | a script on a Closed window reaches native code only through reads of the key and mouse-button views |
| Minifb.SecondCloseThrows | src/minifb.ts:150-154 | `close` twice on an Open window: the first returns, the second throws "Window handle is closed", and the native close ran once |
| Ffi.Utf16Length | src/ffi.ts:290 | `str.length` lies between the character count and twice it, and equals the character count exactly when every character is in the Basic Multilingual Plane |
| Ffi.CStr | src/ffi.ts:289-293 | the buffer has `str.length + 1` bytes. It holds the UTF-8 encoding of the longest run of leading characters that fits, and every byte after that is 0 |
| Ffi.EncodeInto | src/ffi.ts:291 | writes the encoding of a prefix of whole characters that fits the capacity, and the next character would not fit |
| Ffi.EncodeIntoComplete | src/ffi.ts:291 | if the whole encoding fits, all of it is written |
| Ffi.Utf8Length | src/ffi.ts:290 | UTF-8 never needs fewer bytes than the string's JavaScript length. It needs exactly that many if and only if the string is ASCII |
| Ffi.AsciiEncoding | src/ffi.ts:290-291 | for ASCII text, the UTF-8 bytes are the character codes and the JavaScript length is the character count |
| Ffi.CStrAscii | src/ffi.ts:289-293 | for an ASCII string, `cstr` is exactly the character codes followed by one NUL |
| Ffi.CStrCompleteIffAscii | src/ffi.ts:289-293 | for a string without NUL characters, a C reader of `cstr(s)` gets exactly the UTF-8 text of `s` if and only if `s` is ASCII |
| Ffi.CStrUnterminatedExample | src/ffi.ts:289-293 | `cstr("é")` is the two bytes C3 A9 and has no NUL terminator |
| Ffi.OpenEx | src/ffi.ts:307-319 | the handle is what `mfb_open_ex` returns when handed `cstr(title)`, for every title. For an ASCII title that buffer is its codes plus NUL |
| Ffi.IsWindowActive | src/ffi.ts:391-393 | true if and only if the native `u8` is nonzero |
| Ffi.WaitSync | src/ffi.ts:441-443 | true if and only if the native `u8` is nonzero |
| Ffi.U8ToBoolean | src/ffi.ts:391-393 | `Boolean(n)` on a `u8` (here and in `mfb_wait_sync`, src/ffi.ts:441-443) is true exactly when `n` is nonzero, so a C `bool` sent as 0 or 1 comes back as the same truth value |
| JsNumber.FloorDiv | examples/canvas_cross.js:22-27 | `Math.floor(a / b)`: the greatest integer `q` with `b * q <= a` for positive `b`, and the mirrored bounds for negative `b` |
| JsNumber.TruncRem | examples/canvas_cross.js:22-27 | JavaScript `a % b`: the result has the sign of `a`, is smaller in magnitude than `b`, and differs from `a` by a multiple of `b` |
| SpriteAnimation.Columns | examples/canvas_cross.js:21 | on a sheet of whole columns, the column count is at least 1, and that many frame widths make up the sheet |
| SpriteAnimation.QuadOf | examples/canvas_cross.js:21-22 | a URL string as `image` gives a NaN quad for every frame. A loaded sheet gives integer corners |
| SpriteAnimation.NewAnimation | examples/canvas_cross.js:7-23 | starts playing at frame 0. Defaults are speed 1000, width and height 32, frames `[0]`. The quad table matches the frame list in length and order |
| SpriteAnimation.DefaultAnimation | examples/canvas_cross.js:7-22 | with only an image, the animation has one frame at the sheet's origin |
| SpriteAnimation.QuadPosition | examples/canvas_cross.js:21-22 | for frame id `f >= 0` the quad is `((f mod cols) * height, (f div cols) * width)`, with height and width in these positions as in the code |
| SpriteAnimation.QuadDeterminesFrame | examples/canvas_cross.js:21-22 | with a positive height, the frame id can be recovered from its quad: `x / height + (y / width) * cols` |
| SpriteAnimation.FrameAt | examples/canvas_cross.js:27 | NaN exactly when the speed is 0 or there are no frames. Otherwise the index lies strictly between `-count` and `count`. For `speed > 0` and `time >= 0` it is `(time div speed) mod count` |
| SpriteAnimation.Draw | examples/canvas_cross.js:25-31 | only `frame` changes. While playing it is recomputed from the clock; while paused it is unchanged. The call draws if and only if the frame indexes the table, and then hands `drawImage` the animation's own image and that frame's quad. Otherwise it throws reading `f[0]` of `undefined` |
| SpriteAnimation.PlayingFrameInRange | examples/canvas_cross.js:26-29 | with `speed > 0`, `time >= 0` and frames to show, a playing draw selects `(time div speed) mod count`, which lies in `[0, count)`, and does not throw |
| SpriteAnimation.PausedDrawKeepsFrame | examples/canvas_cross.js:26-29 | a paused animation is unchanged by `draw`, and draws the same thing whatever the time |
| SpriteAnimation.VerticalScale | examples/canvas_cross.js:30 | `sy || sx`: `sy` when it is nonzero, `sx` otherwise, so the vertical scale is zero only when both scales are |
| SpriteAnimation.DrawDestinationSize | examples/canvas_cross.js:25-30 | the image drawn is the animation's image, and the source is the frame size. The destination is `width * sx` by `height * (sy || sx)`, with `sx` and `sy` defaulting to 1 |
| SpriteAnimation.FramePeriodic | examples/canvas_cross.js:27 | `time` and `time + speed * count` select the same frame |
| SpriteAnimation.FrameAdvancesEachTick | examples/canvas_cross.js:27 | `speed` milliseconds later the next frame is shown, wrapping after the last |
| SpriteAnimation.DegenerateTimingThrows | examples/canvas_cross.js:27-29 | while playing, a zero speed or an empty frame list makes the frame NaN, and `draw` throws |

## Left out

- The `Deno.dlopen` symbol table (src/ffi.ts:3-283) and the one-line wrappers that only forward to a symbol. The native library is not part of this model; its functions are the fields of the `Native` oracle.
- `getKeyName`, `getTargetFPS` and `setTargetFPS` (src/minifb.ts:29-39): one-line forwards to the native library with no logic of their own.
- The timer functions (src/ffi.ts:445-471) and the float values of `mfb_get_monitor_scale` and the scroll getters: floating point and native. Float results are opaque bit patterns in the model; only the fact that the vertical monitor scale is always the initial 0 (src/ffi.ts:377-383) is modelled. Whether native code then writes `scale_y` one past the 8-byte buffer depends on the address the runtime passes for an empty view; that write is not modelled.
- How Deno converts a JavaScript number passed to a `u32` or `i32` parameter: the model passes the number on unchanged.
- The values of the `STATE_*` constants: they are defined in src/constants.ts, which is not part of this model. They are the `StateCodes` parameter.
- A failed `mfb_open_ex`: in the Deno FFI this code targets, a pointer result is an object, and even a null pointer is truthy. So the model treats every constructed window as Open, as the code does.
- What native code does when `getKey` or `getMouseButton` reads through its view after `close`. The model answers from the oracle, but the native memory behind the view may already be freed.
- JavaScript strings with lone surrogates: Dafny characters are Unicode scalar values. `encodeInto` would write U+FFFD for a lone surrogate.
- Ffi.EncodeInto: its `read` counts characters, not the UTF-16 code units `encodeInto` reports. The model never uses `read`.
- SpriteAnimation.NewAnimation: for a loaded image it requires that `width` is positive and divides the positive `image.width`, so that the column count is a positive integer. Other sheets are not covered. With a fractional column count the quads are floating-point values. A zero `width` gives an infinite column count, and the quads `[f * height, 0]`, where -0 stands for 0 when `f` is negative. A negative `width` that divides the sheet gives a negative column count and integer quads.
- SpriteAnimation.QuadOf: same requirement and reason as `NewAnimation`.
- SpriteAnimation.Columns: same requirement and reason as `NewAnimation`.
- SpriteAnimation.Draw: times, speeds, frame ids and scale factors are integers. Fractional values and a NaN `sy` (also falsy for `||`) are left out as floating point. Integer arithmetic agrees with IEEE doubles for magnitudes below 2^53, which covers `Date.now()` values.
- SpriteAnimation.UndefinedFrameMessage: the `TypeError` thrown when `draw` reads `f[0]` of an undefined frame is worded as V8 words it. Other engines that run examples/canvas_cross.js word it differently; only the fact that `draw` throws is engine-independent.
- Image loading, `drawImage`, `setInterval`/`requestAnimationFrame` and the browser/Deno branching (examples/canvas_cross.js:34-98): user interface and asynchronous I/O.
- src/lib.rs and deno-minifb/src/main.rs (a native render loop that clears a buffer), mod.ts (an empty loader stub), test.ts and examples/basic.ts (scripts that drive a real window).
