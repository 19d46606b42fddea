/**
 The foreign-function boundary of the bindings (src/ffi.ts): the native
 library is an oracle, `Native`, whose functions return arbitrary values of
 their declared C result types (for the `void` monitor-scale symbol, the
 float it stores through its first out-pointer). What the TypeScript side adds on top of the
 raw symbols is modelled exactly: `cstr`, which turns a title into a
 zero-initialised byte buffer filled by `TextEncoder.encodeInto`, and the
 `Boolean(n)` conversion of `u8` results.
 */
module Ffi {
  import opened Outcomes

  type Byte = x: int | 0 <= x < 0x100
  type I32 = x: int | -0x8000_0000 <= x < 0x8000_0000
  type U32 = x: int | 0 <= x < 0x1_0000_0000

  /** A native address, opaque to the script. */
  type Pointer = nat

  /** The bits of a native `float`; the model never computes with them. */
  type F32 = bv32

  /**
   The native library's symbols, with the result types declared for them.
   Numbers handed to a `u32` or `i32` parameter are passed on unconverted.
   `mfb_set_viewport` has no field: `setViewport` discards its result.
   `mfb_get_monitor_scale` returns `void` and writes through two float
   pointers; `getMonitorScale` is what it stores at the first one. The second
   pointer is an empty view (see `Minifb.MonitorScale`), so nothing it stores
   there reaches the script.
   */
  datatype Native = Native(
    openEx: (seq<Byte>, int, int, int) -> Pointer,
    getMouseButtonBuffer: Pointer -> Pointer,
    getKeyBuffer: Pointer -> Pointer,
    updateEx: (Pointer, seq<Byte>, int, int) -> I32,
    updateEvents: Pointer -> I32,
    getMonitorScale: Pointer -> F32,
    isWindowActive: Pointer -> Byte,
    getWindowWidth: Pointer -> U32,
    getWindowHeight: Pointer -> U32,
    getMouseX: Pointer -> I32,
    getMouseY: Pointer -> I32,
    getMouseScrollX: Pointer -> F32,
    getMouseScrollY: Pointer -> F32,
    readU8: (Pointer, int) -> Byte,
    waitSync: Pointer -> Byte
  )

  /** A call that reached the native library, with its arguments. */
  datatype NativeCall =
    | MfbOpenEx(title: seq<Byte>, width: int, height: int, flags: int)
    | MfbGetMouseButtonBuffer(window: Pointer)
    | MfbGetKeyBuffer(window: Pointer)
    | MfbUpdateEx(window: Pointer, buffer: seq<Byte>, width: int, height: int)
    | MfbUpdateEvents(window: Pointer)
    | MfbSetViewport(window: Pointer, x: int, y: int, width: int, height: int)
    | MfbGetMonitorScale(window: Pointer)
    | MfbIsWindowActive(window: Pointer)
    | MfbGetWindowWidth(window: Pointer)
    | MfbGetWindowHeight(window: Pointer)
    | MfbGetMouseX(window: Pointer)
    | MfbGetMouseY(window: Pointer)
    | MfbGetMouseScrollX(window: Pointer)
    | MfbGetMouseScrollY(window: Pointer)
    | ReadU8(view: Pointer, offset: int)
    | MfbWaitSync(window: Pointer)
    | MfbClose(window: Pointer)

  // ---------------------------------------------------------------------
  // Booleans across the boundary.

  /**
   `Boolean(n)` on a `u8` result. A C `bool` arrives as 0 or 1 and comes back
   as the same truth value.
   */
  function U8ToBoolean(n: Byte): (b: bool)
    ensures b <==> n != 0
    ensures n <= 1 ==> n == (if b then 1 else 0)
  {
    n != 0
  }

  // ---------------------------------------------------------------------
  // Strings: JavaScript length, UTF-8 encoding, `encodeInto`.

  predicate IsAscii(s: string) {
    forall i :: 0 <= i < |s| ==> s[i] as int < 0x80
  }

  predicate HasNoNul(s: string) {
    forall i :: 0 <= i < |s| ==> s[i] as int != 0
  }

  /** Code units a character takes in a JavaScript (UTF-16) string. */
  function Utf16Units(c: char): nat {
    if c as int > 0xFFFF then 2 else 1
  }

  /**
   `str.length`: one code unit per character of the Basic Multilingual Plane,
   a surrogate pair for every other.
   */
  function Utf16Length(s: string): (n: nat)
    ensures |s| <= n <= 2 * |s|
    ensures n == |s| <==> forall i :: 0 <= i < |s| ==> s[i] as int <= 0xFFFF
    decreases |s|
  {
    if s == [] then 0
    else
      assert forall i :: 1 <= i < |s| ==> s[i] == s[1..][i - 1];
      Utf16Units(s[0]) + Utf16Length(s[1..])
  }

  /** The UTF-8 encoding of one Unicode scalar value. */
  function Utf8Char(c: char): (e: seq<Byte>)
    ensures 1 <= |e| <= 4
    ensures |e| == 1 <==> c as int < 0x80
    ensures |e| >= Utf16Units(c)
    ensures c as int < 0x80 ==> e == [c as int]
    ensures forall i :: 0 <= i < |e| ==> (e[i] == 0 <==> c as int == 0)
  {
    var n := c as int;
    if n < 0x80 then [n]
    else if n < 0x800 then [0xC0 + n / 0x40, 0x80 + n % 0x40]
    else if n < 0x1_0000 then [0xE0 + n / 0x1000, 0x80 + (n / 0x40) % 0x40, 0x80 + n % 0x40]
    else [0xF0 + n / 0x4_0000, 0x80 + (n / 0x1000) % 0x40, 0x80 + (n / 0x40) % 0x40, 0x80 + n % 0x40]
  }

  function Utf8(s: string): seq<Byte>
    decreases |s|
  {
    if s == [] then [] else Utf8Char(s[0]) + Utf8(s[1..])
  }

  /** The character codes of a string, one byte each (meaningful for ASCII). */
  function AsciiCodes(s: string): (b: seq<Byte>)
    requires IsAscii(s)
  {
    seq(|s|, i requires 0 <= i < |s| => s[i] as int)
  }

  /** What `encodeInto` reports: characters consumed and bytes written. */
  datatype Encoded = Encoded(read: nat, written: seq<Byte>)

  /**
   `TextEncoder.encodeInto` into a destination of `capacity` bytes: whole
   characters are encoded in order until the next one no longer fits.
   (`read` counts characters here, not UTF-16 code units.)
   */
  function EncodeInto(s: string, capacity: nat): (e: Encoded)
    ensures e.read <= |s|
    ensures e.written == Utf8(s[..e.read])
    ensures |e.written| <= capacity
    ensures e.read < |s| ==> |Utf8(s[..e.read + 1])| > capacity
    decreases |s|
  {
    if s == [] then Encoded(0, [])
    else
      var first := Utf8Char(s[0]);
      Utf8Cons(s, 0);
      if |first| > capacity then Encoded(0, [])
      else
        var rest := EncodeInto(s[1..], capacity - |first|);
        Utf8Cons(s, rest.read);
        if rest.read + 1 < |s| then
          Utf8Cons(s, rest.read + 1);
          Encoded(rest.read + 1, first + rest.written)
        else
          Encoded(rest.read + 1, first + rest.written)
  }

  lemma Utf8Cons(s: string, k: nat)
    requires k < |s|
    ensures Utf8(s[..k + 1]) == Utf8Char(s[0]) + Utf8(s[1..][..k])
    ensures Utf8(s[..0]) == []
  {
    assert s[..k + 1][1..] == s[1..][..k];
    assert s[..0] == [];
  }

  function Zeros(n: nat): (z: seq<Byte>)
    ensures |z| == n
    ensures forall i :: 0 <= i < n ==> z[i] == 0
  {
    seq(n, i => 0)
  }

  /**
   `buf` is a zero-initialised buffer into which the longest run of whole
   leading characters of `s` whose UTF-8 encoding fits, the first `k`, has
   been written.
   */
  ghost predicate FilledWithPrefix(buf: seq<Byte>, s: string, k: int) {
    && 0 <= k <= |s|
    && |Utf8(s[..k])| <= |buf|
    && (k < |s| ==> |Utf8(s[..k + 1])| > |buf|)
    && buf == Utf8(s[..k]) + Zeros(|buf| - |Utf8(s[..k])|)
  }

  /** `cstr(str)`: a buffer of `str.length + 1` bytes filled by `encodeInto`. */
  function CStr(s: string): (buf: seq<Byte>)
    ensures |buf| == Utf16Length(s) + 1
    ensures exists k :: FilledWithPrefix(buf, s, k)
  {
    var size := Utf16Length(s) + 1;
    var e := EncodeInto(s, size);
    var buf := e.written + Zeros(size - |e.written|);
    assert FilledWithPrefix(buf, s, e.read);
    buf
  }

  /**
   The bytes a C reader takes from `buf` as a NUL-terminated string, or
   `None` when no NUL byte ends it inside the buffer.
   */
  function CStringBytes(buf: seq<Byte>): (r: Option<seq<Byte>>)
    ensures r.Some? ==> |r.value| < |buf| && buf[..|r.value| + 1] == r.value + [0]
    ensures r.Some? ==> forall i :: 0 <= i < |r.value| ==> r.value[i] != 0
    ensures r.None? <==> forall i :: 0 <= i < |buf| ==> buf[i] != 0
    decreases |buf|
  {
    if buf == [] then None
    else if buf[0] == 0 then Some([])
    else
      match CStringBytes(buf[1..])
      case None => None
      case Some(rest) =>
        assert buf[..|rest| + 2] == [buf[0]] + buf[1..][..|rest| + 1];
        Some([buf[0]] + rest)
  }

  // ---------------------------------------------------------------------
  // Properties of the encoding.

  lemma {:induction false} Utf8Append(a: string, b: string)
    ensures Utf8(a + b) == Utf8(a) + Utf8(b)
    decreases |a|
  {
    if a != [] {
      assert (a + b)[0] == a[0];
      assert (a + b)[1..] == a[1..] + b;
      Utf8Append(a[1..], b);
    } else {
      assert a + b == b;
    }
  }

  /** UTF-8 never takes fewer bytes than UTF-16 takes code units; as many exactly for ASCII. */
  lemma {:induction false} Utf8Length(s: string)
    ensures |Utf8(s)| >= Utf16Length(s)
    ensures |Utf8(s)| == Utf16Length(s) <==> IsAscii(s)
    decreases |s|
  {
    if s != [] {
      Utf8Length(s[1..]);
      if IsAscii(s) {
        assert IsAscii(s[1..]) by {
          forall i | 0 <= i < |s[1..]| ensures s[1..][i] as int < 0x80 {
            assert s[1..][i] == s[i + 1];
          }
        }
      } else if s[0] as int < 0x80 {
        assert !IsAscii(s[1..]) by {
          var j :| 0 <= j < |s| && s[j] as int >= 0x80;
          assert s[1..][j - 1] == s[j];
        }
      }
    }
  }

  /** On ASCII text UTF-8 is the character codes and JavaScript length is the character count. */
  lemma {:induction false} AsciiEncoding(s: string)
    requires IsAscii(s)
    ensures Utf8(s) == AsciiCodes(s)
    ensures Utf16Length(s) == |s|
    decreases |s|
  {
    if s != [] {
      assert IsAscii(s[1..]) by {
        forall i | 0 <= i < |s[1..]| ensures s[1..][i] as int < 0x80 {
          assert s[1..][i] == s[i + 1];
        }
      }
      AsciiEncoding(s[1..]);
      assert AsciiCodes(s) == [s[0] as int] + AsciiCodes(s[1..]);
    }
  }

  lemma {:induction false} Utf8HasNoNul(s: string)
    requires HasNoNul(s)
    ensures forall i :: 0 <= i < |Utf8(s)| ==> Utf8(s)[i] != 0
    decreases |s|
  {
    if s != [] {
      assert HasNoNul(s[1..]) by {
        forall i | 0 <= i < |s[1..]| ensures s[1..][i] as int != 0 {
          assert s[1..][i] == s[i + 1];
        }
      }
      Utf8HasNoNul(s[1..]);
      var e := Utf8Char(s[0]);
      forall i | 0 <= i < |Utf8(s)| ensures Utf8(s)[i] != 0 {
        if i >= |e| {
          assert Utf8(s)[i] == Utf8(s[1..])[i - |e|];
        }
      }
    }
  }

  /** When the whole encoding fits, `encodeInto` writes all of it. */
  lemma EncodeIntoComplete(s: string, capacity: nat)
    requires |Utf8(s)| <= capacity
    ensures EncodeInto(s, capacity) == Encoded(|s|, Utf8(s))
  {
    var e := EncodeInto(s, capacity);
    if e.read < |s| {
      var k := e.read + 1;
      assert s == s[..k] + s[k..];
      Utf8Append(s[..k], s[k..]);
      assert false;
    }
    assert s[..|s|] == s;
  }

  /** For ASCII input `cstr` yields exactly the character codes followed by one NUL. */
  lemma CStrAscii(s: string)
    requires IsAscii(s)
    ensures CStr(s) == AsciiCodes(s) + [0]
    ensures |CStr(s)| == |s| + 1 && CStr(s)[|s|] == 0
  {
    AsciiEncoding(s);
    EncodeIntoComplete(s, |s| + 1);
    assert Zeros(1) == [0];
  }

  /**
   A C reader recovers the complete UTF-8 text from `cstr(s)` exactly when
   `s` is ASCII: any other character makes the buffer too short, so the
   text is cut or loses its terminator.
   */
  lemma CStrCompleteIffAscii(s: string)
    requires HasNoNul(s)
    ensures CStringBytes(CStr(s)) == Some(Utf8(s)) <==> IsAscii(s)
  {
    Utf8Length(s);
    if IsAscii(s) {
      CStrAscii(s);
      AsciiEncoding(s);
      Utf8HasNoNul(s);
      CStringOfTerminated(Utf8(s));
    }
  }

  lemma {:induction false} CStringOfTerminated(p: seq<Byte>)
    requires forall i :: 0 <= i < |p| ==> p[i] != 0
    ensures CStringBytes(p + [0]) == Some(p)
    decreases |p|
  {
    var buf := p + [0];
    if p != [] {
      assert buf[0] == p[0];
      assert buf[1..] == p[1..] + [0];
      CStringOfTerminated(p[1..]);
      assert [p[0]] + p[1..] == p;
    }
  }

  /** "é" has one UTF-16 unit but two UTF-8 bytes: its buffer ends without a NUL. */
  lemma CStrUnterminatedExample()
    ensures CStr("\U{E9}") == [0xC3, 0xA9]
    ensures CStringBytes(CStr("\U{E9}")) == None
  {
    var s := "\U{E9}";
    assert Utf16Length(s) == 1;
    assert Utf8(s) == [0xC3, 0xA9];
    EncodeIntoComplete(s, 2);
  }

  // ---------------------------------------------------------------------
  // The wrappers of src/ffi.ts that do more than forward.

  /** `mfb_open_ex`: the title crosses as `cstr(title)`. */
  function OpenEx(n: Native, title: string, width: int, height: int, flags: int): (w: Pointer)
    ensures w == n.openEx(CStr(title), width, height, flags)
    ensures IsAscii(title) ==> w == n.openEx(AsciiCodes(title) + [0], width, height, flags)
  {
    if IsAscii(title) then CStrAscii(title); n.openEx(CStr(title), width, height, flags)
    else n.openEx(CStr(title), width, height, flags)
  }

  /** `mfb_is_window_active`: `Boolean` of the `u8` result. */
  function IsWindowActive(n: Native, window: Pointer): (active: bool)
    ensures active <==> n.isWindowActive(window) != 0
  {
    U8ToBoolean(n.isWindowActive(window))
  }

  /** `mfb_wait_sync`: `Boolean` of the `u8` result. */
  function WaitSync(n: Native, window: Pointer): (open: bool)
    ensures open <==> n.waitSync(window) != 0
  {
    U8ToBoolean(n.waitSync(window))
  }
}
