/** The evdev values the event loop reads and writes. */
module Events {

  /** A kernel timestamp (`struct timeval`): seconds and microseconds. */
  datatype TimeVal = TimeVal(sec: int, usec: int)

  /** The event codes the loop tells apart. `OtherCode` stands for every code
      that is not `EV_REL/REL_X`, `EV_REL/REL_Y` or `EV_SYN/SYN_REPORT`
      (buttons, wheels, `SYN_DROPPED`, ...), identified by an opaque number. */
  datatype EventCode = RelX | RelY | SynReport | OtherCode(id: nat)

  /** `InputEvent`: timestamp, code and an `i32` value. */
  datatype InputEvent = InputEvent(time: TimeVal, code: EventCode, value: int)

  /** `ReadStatus`: a normal read, or one delivered while the device resynchronises
      after its buffer overflowed. */
  datatype ReadStatus = Success | Sync

  /** `ReadFlag::NORMAL` / `ReadFlag::SYNC`: the mode the next read is made in
      (always combined with `ReadFlag::BLOCKING`). */
  datatype ReadFlag = NormalFlag | SyncFlag

  /** What one `next_event` call returns. */
  datatype ReadResult = Read(status: ReadStatus, event: InputEvent) | ReadError
}
