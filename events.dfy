/** The sequencer events that flow through a pipeline, reduced to what the
    filters look at: the event type and the note or controller payload. */
module Events {

  /** Rust's `u8`, `u32` and `i32`, as ranges of the unbounded integers. */
  type u8 = x: int | 0 <= x < 0x100
  type u32 = x: int | 0 <= x < 0x1_0000_0000
  type i32 = x: int | -0x8000_0000 <= x < 0x8000_0000

  /** A well-formed sequencer event: a note event always carries note data
      and a controller event always carries controller data. Every event
      type the filters do not single out is an `Other`, told apart by its
      type code. */
  datatype Event =
    | NoteOn(channel: u8, note: u8, velocity: u8)
    | NoteOff(channel: u8, note: u8, velocity: u8)
    | Controller(channel: u8, param: u32, value: i32)
    | Clock
    | Sensing
    | Other(code: nat)
}
