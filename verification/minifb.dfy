/**
 The `MfbWindow` class of src/minifb.ts and the decoding of the native
 update status. A window is Open while it holds a native handle and Closed
 once `close` has dropped it; every method but `getMouseButton` and `getKey`
 first checks the handle and throws on a Closed window. Each operation is a
 function from the window to a `Step`: the window afterwards, how the call
 ended, and the native calls it made on the way.
 */
module Minifb {
  import opened Outcomes
  import Ffi
  import JsNumber

  // ---------------------------------------------------------------------
  // Update status codes.

  /** The values of the `STATE_*` constants, which come from a module outside the model. */
  datatype StateCodes = StateCodes(ok: Ffi.I32, exit: Ffi.I32, invalidWindow: Ffi.I32,
                                   invalidBuffer: Ffi.I32, internalError: Ffi.I32)
  {
    predicate Distinct() {
      && ok != exit && ok != invalidWindow && ok != invalidBuffer && ok != internalError
      && exit != invalidWindow && exit != invalidBuffer && exit != internalError
      && invalidWindow != invalidBuffer && invalidWindow != internalError
      && invalidBuffer != internalError
    }

    predicate IsKnown(state: int) {
      state == ok || state == exit || state == invalidWindow || state == invalidBuffer || state == internalError
    }
  }

  const InvalidWindowMessage: string := "Invalid window handle"
  const InvalidBufferMessage: string := "Invalid buffer"
  const InternalErrorMessage: string := "Internal error"
  const UnknownErrorPrefix: string := "Unknown error: "
  const ClosedMessage: string := "Window handle is closed"

  function UnknownErrorMessage(state: int): string {
    UnknownErrorPrefix + JsNumber.IntToDecimal(state)
  }

  /**
   `unwrapUpdateState`: the `switch` compares with the constants in order and
   the first match wins, so the function is total even if two codes coincide.
   */
  function UnwrapUpdateState(c: StateCodes, state: Ffi.I32): (r: Outcome<bool>)
    ensures r == Returned(true) <==> state == c.ok
    ensures r == Returned(false) <==> state == c.exit && state != c.ok
    ensures r.Threw? <==> state != c.ok && state != c.exit
    ensures c.Distinct() && state == c.invalidWindow ==> r == Threw(InvalidWindowMessage)
    ensures c.Distinct() && state == c.invalidBuffer ==> r == Threw(InvalidBufferMessage)
    ensures c.Distinct() && state == c.internalError ==> r == Threw(InternalErrorMessage)
    ensures !c.IsKnown(state) ==> r == Threw(UnknownErrorMessage(state))
  {
    if state == c.ok then Returned(true)
    else if state == c.exit then Returned(false)
    else if state == c.invalidWindow then Threw(InvalidWindowMessage)
    else if state == c.invalidBuffer then Threw(InvalidBufferMessage)
    else if state == c.internalError then Threw(InternalErrorMessage)
    else Threw(UnknownErrorMessage(state))
  }

  /** The message for an unknown status spells the status out in decimal. */
  lemma UnknownErrorNamesCode(c: StateCodes, state: Ffi.I32)
    requires !c.IsKnown(state)
    ensures var m := UnwrapUpdateState(c, state).message;
      |m| > |UnknownErrorPrefix| && m[..|UnknownErrorPrefix|] == UnknownErrorPrefix
      && JsNumber.ParseDecimal(m[|UnknownErrorPrefix|..]) == state
  {
    var m := UnknownErrorMessage(state);
    assert m[|UnknownErrorPrefix|..] == JsNumber.IntToDecimal(state);
    JsNumber.DecimalRoundTrip(state);
  }

  /** With distinct constants, distinct statuses never decode to the same outcome. */
  lemma UnwrapInjective(c: StateCodes, s1: Ffi.I32, s2: Ffi.I32)
    requires c.Distinct()
    requires UnwrapUpdateState(c, s1) == UnwrapUpdateState(c, s2)
    ensures s1 == s2
  {
    UnknownMessageIsNotFixed(s1);
    UnknownMessageIsNotFixed(s2);
    if !c.IsKnown(s1) && !c.IsKnown(s2) {
      var d1 := JsNumber.IntToDecimal(s1);
      var d2 := JsNumber.IntToDecimal(s2);
      assert d1 == UnknownErrorMessage(s1)[|UnknownErrorPrefix|..];
      assert d2 == UnknownErrorMessage(s2)[|UnknownErrorPrefix|..];
      JsNumber.DecimalInjective(s1, s2);
    }
  }

  /** No unknown-status message coincides with a fixed message. */
  lemma UnknownMessageIsNotFixed(state: int)
    ensures UnknownErrorMessage(state) !in {InvalidWindowMessage, InvalidBufferMessage, InternalErrorMessage, ClosedMessage}
  {
    var m := UnknownErrorMessage(state);
    assert m[0] == 'U';
  }

  // ---------------------------------------------------------------------
  // The window.

  /**
   An `MfbWindow`: `handle` is `#handle` (absent once closed); the two views
   onto native mouse-button and key state are fixed at construction.
   */
  datatype Window = Window(handle: Option<Ffi.Pointer>, mouseButtonBuffer: Ffi.Pointer, keyBuffer: Ffi.Pointer)
  {
    predicate IsOpen() {
      handle.Some?
    }
  }

  /** What a method or getter returns to the script. */
  datatype Value =
    | Undefined
    | Bool(b: bool)
    | Number(n: int)
    | Float(bits: Ffi.F32)
    | FloatPair(x: Ffi.F32, y: Ffi.F32)

  datatype Step = Step(window: Window, result: Outcome<Value>, calls: seq<Ffi.NativeCall>)

  datatype Created = Created(window: Window, calls: seq<Ffi.NativeCall>)

  /** `new MfbWindow(title, width, height, flags = 0)`. */
  function NewWindow(n: Ffi.Native, title: string, width: int, height: int, flags: Option<int>): (r: Created)
    ensures r.window.IsOpen()
    ensures |r.calls| == 3 && r.calls[0] == Ffi.MfbOpenEx(Ffi.CStr(title), width, height, flags.GetOr(0))
    ensures Ffi.IsAscii(title) ==> r.calls[0].title == Ffi.AsciiCodes(title) + [0]
    ensures r.window.handle == Some(Ffi.OpenEx(n, title, width, height, flags.GetOr(0)))
    ensures r.calls[1..] == [Ffi.MfbGetMouseButtonBuffer(r.window.handle.value), Ffi.MfbGetKeyBuffer(r.window.handle.value)]
    ensures r.window.mouseButtonBuffer == n.getMouseButtonBuffer(r.window.handle.value)
    ensures r.window.keyBuffer == n.getKeyBuffer(r.window.handle.value)
  {
    var f := flags.GetOr(0);
    var h := Ffi.OpenEx(n, title, width, height, f);
    if Ffi.IsAscii(title) then Ffi.CStrAscii(title); Build(n, title, width, height, f, h)
    else Build(n, title, width, height, f, h)
  }

  function Build(n: Ffi.Native, title: string, width: int, height: int, f: int, h: Ffi.Pointer): Created {
    Created(Window(Some(h), n.getMouseButtonBuffer(h), n.getKeyBuffer(h)),
            [Ffi.MfbOpenEx(Ffi.CStr(title), width, height, f), Ffi.MfbGetMouseButtonBuffer(h), Ffi.MfbGetKeyBuffer(h)])
  }

  /** Omitting `flags` is the same as passing 0. */
  lemma NewWindowDefaultFlags(n: Ffi.Native, title: string, width: int, height: int)
    ensures NewWindow(n, title, width, height, None) == NewWindow(n, title, width, height, Some(0))
  {
  }

  /** `#assertHandle` on a Closed window: throw before any native call. */
  function Rejected(w: Window): Step {
    Step(w, Threw(ClosedMessage), [])
  }

  /** A call on the window's handle that returns `v` after the native call `call`. */
  function Forward(w: Window, v: Value, call: Ffi.NativeCall): Step {
    Step(w, Returned(v), [call])
  }

  function Update(c: StateCodes, n: Ffi.Native, w: Window, buffer: seq<Ffi.Byte>, width: int, height: int): (s: Step)
    ensures s.window == w
    ensures !w.IsOpen() ==> s == Rejected(w)
    ensures w.IsOpen() ==> s.result == UnwrapUpdateState(c, n.updateEx(w.handle.value, buffer, width, height)).MapValue(b => Bool(b))
    ensures w.IsOpen() ==> s.calls == [Ffi.MfbUpdateEx(w.handle.value, buffer, width, height)]
  {
    match w.handle
    case None => Rejected(w)
    case Some(h) =>
      Step(w, UnwrapUpdateState(c, n.updateEx(h, buffer, width, height)).MapValue(b => Bool(b)),
           [Ffi.MfbUpdateEx(h, buffer, width, height)])
  }

  function UpdateEvents(c: StateCodes, n: Ffi.Native, w: Window): (s: Step)
    ensures s.window == w
    ensures !w.IsOpen() ==> s == Rejected(w)
    ensures w.IsOpen() ==> s.result == UnwrapUpdateState(c, n.updateEvents(w.handle.value)).MapValue(b => Bool(b))
    ensures w.IsOpen() ==> s.calls == [Ffi.MfbUpdateEvents(w.handle.value)]
  {
    match w.handle
    case None => Rejected(w)
    case Some(h) =>
      Step(w, UnwrapUpdateState(c, n.updateEvents(h)).MapValue(b => Bool(b)), [Ffi.MfbUpdateEvents(h)])
  }

  /** `setViewport` discards the native result and returns `undefined`. */
  function SetViewport(n: Ffi.Native, w: Window, x: int, y: int, width: int, height: int): (s: Step)
    ensures s.window == w
    ensures !w.IsOpen() ==> s == Rejected(w)
    ensures w.IsOpen() ==> s.result == Returned(Undefined) && s.calls == [Ffi.MfbSetViewport(w.handle.value, x, y, width, height)]
  {
    match w.handle
    case None => Rejected(w)
    case Some(h) => Forward(w, Undefined, Ffi.MfbSetViewport(h, x, y, width, height))
  }

  /**
   `monitorScale`: src/ffi.ts allocates a two-element `Float32Array` and hands
   native code `subarray(0, 4)` and `subarray(4, 8)`. Indices clamp to the
   length, so the second view is empty: native code fills `scale[0]` through
   the first, and `scale[1]` keeps the 0 it was created with. The offsets look
   like byte offsets used where element indices are expected; the empty view
   starts one past the 8-byte buffer, so if the runtime passes that address
   on, native code writes `scale_y` out of bounds. That write is not modelled.
   */
  function MonitorScale(n: Ffi.Native, w: Window): (s: Step)
    ensures s.window == w
    ensures !w.IsOpen() ==> s == Rejected(w)
    ensures w.IsOpen() ==>
      && s.result == Returned(FloatPair(n.getMonitorScale(w.handle.value), 0))
      && s.calls == [Ffi.MfbGetMonitorScale(w.handle.value)]
  {
    match w.handle
    case None => Rejected(w)
    case Some(h) => Forward(w, FloatPair(n.getMonitorScale(h), 0), Ffi.MfbGetMonitorScale(h))
  }

  function Active(n: Ffi.Native, w: Window): (s: Step)
    ensures s.window == w
    ensures !w.IsOpen() ==> s == Rejected(w)
    ensures w.IsOpen() ==>
      && s.result == Returned(Bool(n.isWindowActive(w.handle.value) != 0))
      && s.calls == [Ffi.MfbIsWindowActive(w.handle.value)]
  {
    match w.handle
    case None => Rejected(w)
    case Some(h) => Forward(w, Bool(Ffi.IsWindowActive(n, h)), Ffi.MfbIsWindowActive(h))
  }

  function Width(n: Ffi.Native, w: Window): (s: Step)
    ensures s.window == w
    ensures !w.IsOpen() ==> s == Rejected(w)
    ensures w.IsOpen() ==>
      && s.result == Returned(Number(n.getWindowWidth(w.handle.value)))
      && s.calls == [Ffi.MfbGetWindowWidth(w.handle.value)]
  {
    match w.handle
    case None => Rejected(w)
    case Some(h) => Forward(w, Number(n.getWindowWidth(h)), Ffi.MfbGetWindowWidth(h))
  }

  function Height(n: Ffi.Native, w: Window): (s: Step)
    ensures s.window == w
    ensures !w.IsOpen() ==> s == Rejected(w)
    ensures w.IsOpen() ==>
      && s.result == Returned(Number(n.getWindowHeight(w.handle.value)))
      && s.calls == [Ffi.MfbGetWindowHeight(w.handle.value)]
  {
    match w.handle
    case None => Rejected(w)
    case Some(h) => Forward(w, Number(n.getWindowHeight(h)), Ffi.MfbGetWindowHeight(h))
  }

  function MouseX(n: Ffi.Native, w: Window): (s: Step)
    ensures s.window == w
    ensures !w.IsOpen() ==> s == Rejected(w)
    ensures w.IsOpen() ==>
      && s.result == Returned(Number(n.getMouseX(w.handle.value)))
      && s.calls == [Ffi.MfbGetMouseX(w.handle.value)]
  {
    match w.handle
    case None => Rejected(w)
    case Some(h) => Forward(w, Number(n.getMouseX(h)), Ffi.MfbGetMouseX(h))
  }

  function MouseY(n: Ffi.Native, w: Window): (s: Step)
    ensures s.window == w
    ensures !w.IsOpen() ==> s == Rejected(w)
    ensures w.IsOpen() ==>
      && s.result == Returned(Number(n.getMouseY(w.handle.value)))
      && s.calls == [Ffi.MfbGetMouseY(w.handle.value)]
  {
    match w.handle
    case None => Rejected(w)
    case Some(h) => Forward(w, Number(n.getMouseY(h)), Ffi.MfbGetMouseY(h))
  }

  function MouseScrollX(n: Ffi.Native, w: Window): (s: Step)
    ensures s.window == w
    ensures !w.IsOpen() ==> s == Rejected(w)
    ensures w.IsOpen() ==>
      && s.result == Returned(Float(n.getMouseScrollX(w.handle.value)))
      && s.calls == [Ffi.MfbGetMouseScrollX(w.handle.value)]
  {
    match w.handle
    case None => Rejected(w)
    case Some(h) => Forward(w, Float(n.getMouseScrollX(h)), Ffi.MfbGetMouseScrollX(h))
  }

  function MouseScrollY(n: Ffi.Native, w: Window): (s: Step)
    ensures s.window == w
    ensures !w.IsOpen() ==> s == Rejected(w)
    ensures w.IsOpen() ==>
      && s.result == Returned(Float(n.getMouseScrollY(w.handle.value)))
      && s.calls == [Ffi.MfbGetMouseScrollY(w.handle.value)]
  {
    match w.handle
    case None => Rejected(w)
    case Some(h) => Forward(w, Float(n.getMouseScrollY(h)), Ffi.MfbGetMouseScrollY(h))
  }

  /** No handle check: the byte is read through the view taken at construction. */
  function GetMouseButton(n: Ffi.Native, w: Window, button: int): (s: Step)
    ensures s.window == w
    ensures s.result == Returned(Bool(n.readU8(w.mouseButtonBuffer, button) != 0))
  {
    Forward(w, Bool(Ffi.U8ToBoolean(n.readU8(w.mouseButtonBuffer, button))), Ffi.ReadU8(w.mouseButtonBuffer, button))
  }

  /** No handle check: the byte is read through the view taken at construction. */
  function GetKey(n: Ffi.Native, w: Window, key: int): (s: Step)
    ensures s.window == w
    ensures s.result == Returned(Bool(n.readU8(w.keyBuffer, key) != 0))
  {
    Forward(w, Bool(Ffi.U8ToBoolean(n.readU8(w.keyBuffer, key))), Ffi.ReadU8(w.keyBuffer, key))
  }

  function WaitSync(n: Ffi.Native, w: Window): (s: Step)
    ensures s.window == w
    ensures !w.IsOpen() ==> s == Rejected(w)
    ensures w.IsOpen() ==>
      && s.result == Returned(Bool(n.waitSync(w.handle.value) != 0))
      && s.calls == [Ffi.MfbWaitSync(w.handle.value)]
  {
    match w.handle
    case None => Rejected(w)
    case Some(h) => Forward(w, Bool(Ffi.WaitSync(n, h)), Ffi.MfbWaitSync(h))
  }

  /** `close`: checks the handle, closes it natively, then forgets it. */
  function Close(w: Window): (s: Step)
    ensures !s.window.IsOpen()
    ensures !w.IsOpen() ==> s == Rejected(w)
    ensures w.IsOpen() ==> s.result == Returned(Undefined) && s.calls == [Ffi.MfbClose(w.handle.value)]
    ensures s.window.mouseButtonBuffer == w.mouseButtonBuffer && s.window.keyBuffer == w.keyBuffer
  {
    match w.handle
    case None => Rejected(w)
    case Some(h) => Step(w.(handle := None), Returned(Undefined), [Ffi.MfbClose(h)])
  }

  // ---------------------------------------------------------------------
  // Any call, and sequences of calls.

  /** A call a script can make on a window. */
  datatype Call =
    | CallUpdate(buffer: seq<Ffi.Byte>, width: int, height: int)
    | CallUpdateEvents
    | CallSetViewport(x: int, y: int, width: int, height: int)
    | GetMonitorScale
    | GetActive
    | GetWidth
    | GetHeight
    | GetMouseX
    | GetMouseY
    | GetMouseScrollX
    | GetMouseScrollY
    | CallGetMouseButton(button: int)
    | CallGetKey(key: int)
    | CallWaitSync
    | CallClose

  /** The calls whose member begins with `#assertHandle()`. */
  predicate IsGated(call: Call) {
    !call.CallGetMouseButton? && !call.CallGetKey?
  }

  function Apply(c: StateCodes, n: Ffi.Native, w: Window, call: Call): Step {
    match call
    case CallUpdate(buffer, width, height) => Update(c, n, w, buffer, width, height)
    case CallUpdateEvents => UpdateEvents(c, n, w)
    case CallSetViewport(x, y, width, height) => SetViewport(n, w, x, y, width, height)
    case GetMonitorScale => MonitorScale(n, w)
    case GetActive => Active(n, w)
    case GetWidth => Width(n, w)
    case GetHeight => Height(n, w)
    case GetMouseX => MouseX(n, w)
    case GetMouseY => MouseY(n, w)
    case GetMouseScrollX => MouseScrollX(n, w)
    case GetMouseScrollY => MouseScrollY(n, w)
    case CallGetMouseButton(button) => GetMouseButton(n, w, button)
    case CallGetKey(key) => GetKey(n, w, key)
    case CallWaitSync => WaitSync(n, w)
    case CallClose => Close(w)
  }

  /** On a Closed window every gated call throws and nothing reaches the native library. */
  lemma ClosedWindowRejectsGatedCalls(c: StateCodes, n: Ffi.Native, w: Window, call: Call)
    requires !w.IsOpen() && IsGated(call)
    ensures Apply(c, n, w, call) == Step(w, Threw(ClosedMessage), [])
  {
  }

  /**
   "Window handle is closed" is thrown exactly by gated calls on a Closed
   window: no update status decodes to that message.
   */
  lemma ClosedErrorIffClosed(c: StateCodes, n: Ffi.Native, w: Window, call: Call)
    ensures Apply(c, n, w, call).result == Threw(ClosedMessage) <==> !w.IsOpen() && IsGated(call)
  {
    if w.IsOpen() {
      var h := w.handle.value;
      match call
      case CallUpdate(buffer, width, height) =>
        UnwrapNeverClosed(c, n.updateEx(h, buffer, width, height));
      case CallUpdateEvents =>
        UnwrapNeverClosed(c, n.updateEvents(h));
      case _ =>
    }
  }

  lemma UnwrapNeverClosed(c: StateCodes, state: Ffi.I32)
    ensures UnwrapUpdateState(c, state) != Threw(ClosedMessage)
  {
    UnknownMessageIsNotFixed(state);
  }

  /** `getMouseButton` and `getKey` answer whatever the window's state, from one native byte. */
  lemma UngatedCallsIgnoreHandle(c: StateCodes, n: Ffi.Native, w: Window, call: Call)
    requires !IsGated(call)
    ensures var s := Apply(c, n, w, call);
      var view := if call.CallGetKey? then w.keyBuffer else w.mouseButtonBuffer;
      var offset := if call.CallGetKey? then call.key else call.button;
      s == Step(w, Returned(Bool(n.readU8(view, offset) != 0)), [Ffi.ReadU8(view, offset)])
  {
  }

  /** The native symbol each gated member calls, on handle `h`, as src/minifb.ts:80-154 wires them. */
  function Symbol(call: Call, h: Ffi.Pointer): Ffi.NativeCall
    requires IsGated(call)
  {
    match call
    case CallUpdate(buffer, width, height) => Ffi.MfbUpdateEx(h, buffer, width, height)
    case CallUpdateEvents => Ffi.MfbUpdateEvents(h)
    case CallSetViewport(x, y, width, height) => Ffi.MfbSetViewport(h, x, y, width, height)
    case GetMonitorScale => Ffi.MfbGetMonitorScale(h)
    case GetActive => Ffi.MfbIsWindowActive(h)
    case GetWidth => Ffi.MfbGetWindowWidth(h)
    case GetHeight => Ffi.MfbGetWindowHeight(h)
    case GetMouseX => Ffi.MfbGetMouseX(h)
    case GetMouseY => Ffi.MfbGetMouseY(h)
    case GetMouseScrollX => Ffi.MfbGetMouseScrollX(h)
    case GetMouseScrollY => Ffi.MfbGetMouseScrollY(h)
    case CallWaitSync => Ffi.MfbWaitSync(h)
    case CallClose => Ffi.MfbClose(h)
  }

  /**
   On an Open window a gated call makes exactly one native call, to its own
   symbol on this window's handle, and only `update` and `updateEvents` can
   throw (when the status decodes to an error).
   */
  lemma OpenWindowForwardsGatedCalls(c: StateCodes, n: Ffi.Native, w: Window, call: Call)
    requires w.IsOpen() && IsGated(call)
    ensures var s := Apply(c, n, w, call);
      && s.calls == [Symbol(call, w.handle.value)]
      && (!call.CallUpdate? && !call.CallUpdateEvents? ==> s.result.Returned?)
  {
  }

  /** `update` and `updateEvents` on an Open window report the decoded native status. */
  lemma OpenUpdateDecodesStatus(c: StateCodes, n: Ffi.Native, w: Window, buffer: seq<Ffi.Byte>, width: int, height: int)
    requires w.IsOpen()
    ensures var h := w.handle.value;
      && Apply(c, n, w, CallUpdate(buffer, width, height)).result
         == UnwrapUpdateState(c, n.updateEx(h, buffer, width, height)).MapValue(b => Bool(b))
      && Apply(c, n, w, CallUpdateEvents).result
         == UnwrapUpdateState(c, n.updateEvents(h)).MapValue(b => Bool(b))
  {
  }

  /** Only `close` changes the window. */
  lemma OnlyCloseChangesWindow(c: StateCodes, n: Ffi.Native, w: Window, call: Call)
    requires !call.CallClose?
    ensures Apply(c, n, w, call).window == w
  {
  }

  /** A trace of a script: the final window, each call's outcome, all native calls in order. */
  datatype Trace = Trace(window: Window, results: seq<Outcome<Value>>, calls: seq<Ffi.NativeCall>)

  /** Runs calls one after another, each one's thrown error caught by the script. */
  function Run(c: StateCodes, n: Ffi.Native, w: Window, script: seq<Call>): (t: Trace)
    ensures |t.results| == |script|
    decreases |script|
  {
    if script == [] then Trace(w, [], [])
    else
      var s := Apply(c, n, w, script[0]);
      var t := Run(c, n, s.window, script[1..]);
      Trace(t.window, [s.result] + t.results, s.calls + t.calls)
  }

  /** A window ends a script Open exactly when it started Open and the script never closes it. */
  lemma {:induction false} RunStaysOpenIffNoClose(c: StateCodes, n: Ffi.Native, w: Window, script: seq<Call>)
    ensures Run(c, n, w, script).window.IsOpen() <==> w.IsOpen() && forall i :: 0 <= i < |script| ==> !script[i].CallClose?
    decreases |script|
  {
    if script != [] {
      var s := Apply(c, n, w, script[0]);
      RunStaysOpenIffNoClose(c, n, s.window, script[1..]);
      assert forall i :: 1 <= i < |script| ==> script[i] == script[1..][i - 1];
      if !script[0].CallClose? {
        assert s.window == w;
      }
    }
  }

  function CloseCount(calls: seq<Ffi.NativeCall>): nat
    decreases |calls|
  {
    if calls == [] then 0 else (if calls[0].MfbClose? then 1 else 0) + CloseCount(calls[1..])
  }

  lemma {:induction false} CloseCountAppend(a: seq<Ffi.NativeCall>, b: seq<Ffi.NativeCall>)
    ensures CloseCount(a + b) == CloseCount(a) + CloseCount(b)
    decreases |a|
  {
    if a == [] {
      assert a + b == b;
    } else {
      assert (a + b)[1..] == a[1..] + b;
      CloseCountAppend(a[1..], b);
    }
  }

  /** Whatever a script does, the native close runs at most once, and never for a Closed window. */
  lemma {:induction false} NativeCloseAtMostOnce(c: StateCodes, n: Ffi.Native, w: Window, script: seq<Call>)
    ensures CloseCount(Run(c, n, w, script).calls) <= (if w.IsOpen() then 1 else 0)
    decreases |script|
  {
    if script != [] {
      var s := Apply(c, n, w, script[0]);
      NativeCloseAtMostOnce(c, n, s.window, script[1..]);
      CloseCountAppend(s.calls, Run(c, n, s.window, script[1..]).calls);
      StepCloseCount(c, n, w, script[0]);
    }
  }

  /** One call closes natively exactly when it is `close` on an Open window, which it leaves Closed. */
  lemma StepCloseCount(c: StateCodes, n: Ffi.Native, w: Window, call: Call)
    ensures var s := Apply(c, n, w, call);
      && CloseCount(s.calls) == (if call.CallClose? && w.IsOpen() then 1 else 0)
      && (call.CallClose? ==> !s.window.IsOpen())
      && (!call.CallClose? ==> s.window == w)
  {
    var s := Apply(c, n, w, call);
    if IsGated(call) && w.IsOpen() {
      OpenWindowForwardsGatedCalls(c, n, w, call);
      assert s.calls[1..] == [];
    } else if !IsGated(call) {
      assert s.calls[1..] == [];
    }
  }

  /** A Closed window only ever reads its key and mouse-button views. */
  lemma {:induction false} ClosedWindowOnlyReadsViews(c: StateCodes, n: Ffi.Native, w: Window, script: seq<Call>)
    requires !w.IsOpen()
    ensures forall i :: 0 <= i < |Run(c, n, w, script).calls| ==>
      && Run(c, n, w, script).calls[i].ReadU8?
      && Run(c, n, w, script).calls[i].view in {w.keyBuffer, w.mouseButtonBuffer}
    decreases |script|
  {
    if script != [] {
      var s := Apply(c, n, w, script[0]);
      assert s.window == w;
      ClosedWindowOnlyReadsViews(c, n, w, script[1..]);
    }
  }

  /** Closing twice: the second `close` throws and the native close ran once. */
  lemma SecondCloseThrows(c: StateCodes, n: Ffi.Native, w: Window)
    requires w.IsOpen()
    ensures Run(c, n, w, [CallClose, CallClose])
      == Trace(w.(handle := None), [Returned(Undefined), Threw(ClosedMessage)], [Ffi.MfbClose(w.handle.value)])
  {
    var s := Apply(c, n, w, CallClose);
    assert [CallClose, CallClose][1..] == [CallClose];
    assert Run(c, n, s.window, [CallClose]) == Trace(s.window, [Threw(ClosedMessage)], []);
  }
}
