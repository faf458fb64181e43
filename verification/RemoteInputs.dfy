/** Remote input events and the daemon's rules for accepting one. */
module RemoteInputs {
  import opened Utf16

  // Event kinds and actions, as numbered on the wire.
  const KEY := 1
  const POINTER_MOVE := 2
  const POINTER_BUTTON := 3
  const SCROLL := 4
  const TEXT := 5

  const ACTION_NONE := 0
  const ACTION_DOWN := 1
  const ACTION_UP := 2

  const KEYCODE_TAB := 61
  const KEYCODE_ENTER := 66

  const MAX_DELTA := 10000.0
  const MAX_TEXT_BYTES := 4096

  /** The text of an event: decoded UTF-8, or bytes that are not UTF-8. */
  datatype InputText = Utf8(points: seq<CodePoint>) | NotUtf8

  datatype RemoteInput = RemoteInput(kind: nat, action: nat, keyCode: nat, button: nat,
                                     x: real, y: real, text: InputText)

  function Utf8Size(c: CodePoint): nat {
    if c < 0x80 then 1 else if c < 0x800 then 2 else if c < 0x1_0000 then 3 else 4
  }

  function TextSize(points: seq<CodePoint>): nat {
    if points == [] then 0 else TextSize(points[..|points| - 1]) + Utf8Size(points[|points| - 1])
  }

  predicate IsControl(c: CodePoint) {
    c < 0x20 || 0x7F <= c < 0xA0
  }

  predicate IsForbidden(c: CodePoint) {
    IsControl(c) || c == 0x2028 || c == 0x2029
  }

  predicate SupportedKey(code: nat) {
    code in {4, 19, 20, 21, 22, 23, 61, 62, 66, 67, 111, 112}
  }

  predicate WithinDelta(d: real) {
    -MAX_DELTA <= d <= MAX_DELTA
  }

  /** The events the daemon lets through to the input emulator. */
  predicate Validate(i: RemoteInput) {
    && WithinDelta(i.x) && WithinDelta(i.y)
    && if i.kind == KEY then
         SupportedKey(i.keyCode) && (i.action == ACTION_DOWN || i.action == ACTION_UP)
       else if i.kind == POINTER_MOVE || i.kind == SCROLL then
         i.action == ACTION_NONE && (i.x != 0.0 || i.y != 0.0)
       else if i.kind == POINTER_BUTTON then
         1 <= i.button <= 5 && (i.action == ACTION_DOWN || i.action == ACTION_UP)
       else if i.kind == TEXT then
         && i.action == ACTION_NONE
         && i.text.Utf8? && i.text.points != [] && TextSize(i.text.points) <= MAX_TEXT_BYTES
         && forall k :: 0 <= k < |i.text.points| ==> !IsForbidden(i.text.points[k])
       else false
  }
}
