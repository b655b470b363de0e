/**
 * Values the compositor computes before putting them on the wire: the
 * button code, the key code and the millisecond timestamp.  All three are
 * C `uint32_t`/`uint` quantities, so their wrap-around is written out.
 */
module Wire {

  const TwoTo32: int := 0x1_0000_0000

  /** A C `uint32_t`. */
  type UInt32 = x: int | 0 <= x < TwoTo32

  /** The Qt 4 values of `Qt::MouseButton` the switch names; any other value is possible. */
  const LeftButton: int := 0x01
  const RightButton: int := 0x02

  /** Linux evdev button codes from `linux/input.h`. */
  const BTN_LEFT: UInt32 := 0x110
  const BTN_RIGHT: UInt32 := 0x111
  const BTN_MIDDLE: UInt32 := 0x112

  /**
   * `toWaylandButton`: the left and right buttons keep their meaning; every
   * other button value, recognised or not, falls back to the middle button.
   */
  function ToWaylandButton(button: int): (code: UInt32)
    ensures code == BTN_LEFT || code == BTN_RIGHT || code == BTN_MIDDLE
    ensures code == BTN_LEFT <==> button == LeftButton
    ensures code == BTN_RIGHT <==> button == RightButton
  {
    if button == LeftButton then BTN_LEFT
    else if button == RightButton then BTN_RIGHT
    else BTN_MIDDLE
  }

  /** Host key codes are X key codes; the wire carries evdev codes, which are 8 lower. */
  const KeyCodeOffset: int := 8

  /**
   * The `code - 8` of the key events, in unsigned 32-bit arithmetic: adding
   * the offset back always recovers the host code, and no wrap happens for
   * codes of at least 8.
   */
  function WireKeyCode(code: UInt32): (key: UInt32)
    ensures (key + KeyCodeOffset) % TwoTo32 == code
    ensures code >= KeyCodeOffset ==> key + KeyCodeOffset == code
    ensures code < KeyCodeOffset ==> key == TwoTo32 - KeyCodeOffset + code
  {
    (code - KeyCodeOffset) % TwoTo32
  }

  /** Two different host codes never reach the wire as the same key. */
  lemma WireKeyCodeInjective(a: UInt32, b: UInt32)
    requires WireKeyCode(a) == WireKeyCode(b)
    ensures a == b
  {
  }

  /**
   * One reading of the system clock: `gettimeofday` either fails or yields
   * seconds and microseconds.
   */
  datatype Clock = Failed | Reading(sec: int, usec: int)

  /** C integer division, which truncates toward zero. */
  function CDiv(a: int, b: int): int
    requires b > 0
  {
    if a >= 0 then a / b else -((-a) / b)
  }

  /** Milliseconds of a reading before the conversion to `uint`. */
  function ExactMsecs(sec: int, usec: int): int {
    sec * 1000 + CDiv(usec, 1000)
  }

  /**
   * `currentTimeMsecs`: the reading in milliseconds, truncated to 32 bits by
   * the conversion to `uint`; 0 when the clock cannot be read.
   */
  function CurrentTimeMsecs(clock: Clock): (t: UInt32)
    ensures clock.Failed? ==> t == 0
    ensures clock.Reading? ==> (t - ExactMsecs(clock.sec, clock.usec)) % TwoTo32 == 0
    ensures clock.Reading? && 0 <= ExactMsecs(clock.sec, clock.usec) < TwoTo32 ==>
              t == ExactMsecs(clock.sec, clock.usec)
  {
    match clock
    case Failed => 0
    case Reading(sec, usec) => ExactMsecs(sec, usec) % TwoTo32
  }

  /** A reading one second later yields a timestamp 1000 ms later, modulo 2^32. */
  lemma OneSecondLater(sec: int, usec: int)
    ensures CurrentTimeMsecs(Reading(sec + 1, usec))
         == (CurrentTimeMsecs(Reading(sec, usec)) + 1000) % TwoTo32
  {
  }

  /** A reading one millisecond later yields the next timestamp, modulo 2^32, as long as the microseconds are non-negative. */
  lemma OneMillisecondLater(sec: int, usec: int)
    requires usec >= 0
    ensures CurrentTimeMsecs(Reading(sec, usec + 1000))
         == (CurrentTimeMsecs(Reading(sec, usec)) + 1) % TwoTo32
  {
  }
}
