/** Key events and records as the firmware passes them around
    (quantum/keyboard.h, quantum/action.h), and wrapping timer arithmetic (platforms/timer.h). */
module Keyboard {

  type uint8 = n: int | 0 <= n < 0x100
  type uint16 = n: int | 0 <= n < 0x1_0000
  type uint32 = n: int | 0 <= n < 0x1_0000_0000

  /** The tap counter is a 4-bit field. */
  type TapCount = n: int | 0 <= n < 16

  datatype Key = Key(row: uint8, col: uint8)

  datatype EventType = TickEvent | KeyEvent | EncoderCw | EncoderCcw | ComboEvent | DipSwitchOn | DipSwitchOff

  datatype Event = Event(key: Key, time: uint16, kind: EventType, pressed: bool) {
    predicate IsTick() { kind.TickEvent? }
  }

  datatype Tap = Tap(interrupted: bool, count: TapCount)

  datatype Record = Record(event: Event, tap: Tap)

  /** The all-zero record: its event is a tick, so a slot holding it is empty. */
  const NO_RECORD := Record(Event(Key(0, 0), 0, TickEvent, false), Tap(false, 0))

  /** A record as `action_exec` builds it: all tap fields zero. */
  function NewRecord(e: Event): Record { Record(e, Tap(false, 0)) }

  /** `TIMER_DIFF_16`: unsigned 16-bit subtraction. */
  function TimerDiff16(a: uint16, b: uint16): uint16 { (a - b) % 0x1_0000 }

  /** It tells the time between two stamps, across the wrap, if that is less than 2^16 ms. */
  lemma TimerDiffTells(earlier: nat, later: nat)
    requires earlier <= later < earlier + 0x1_0000
    ensures TimerDiff16(later % 0x1_0000, earlier % 0x1_0000) == later - earlier
  {
    var d := later - earlier;
    assert earlier == 0x1_0000 * (earlier / 0x1_0000) + earlier % 0x1_0000;
    assert later == 0x1_0000 * (later / 0x1_0000) + later % 0x1_0000;
    assert later % 0x1_0000 - earlier % 0x1_0000 == d + 0x1_0000 * (earlier / 0x1_0000 - later / 0x1_0000);
  }
}
