/** Build-time constants for note placement and sizing (src/constants/noteDefaults.ts), in pixels. */
module NoteDefaults {
  /** Size of a newly added note. */
  const DEFAULT_NOTE_WIDTH: real := 200.0
  const DEFAULT_NOTE_HEIGHT: real := 160.0

  /** Position of the first note added to an empty board. */
  const INITIAL_NOTE_X: real := 40.0
  const INITIAL_NOTE_Y: real := 40.0

  /** Diagonal step between successively added notes. */
  const NOTE_STACK_OFFSET: real := 20.0

  /** Smallest size a resize gesture can produce. */
  const MIN_NOTE_WIDTH: real := 120.0
  const MIN_NOTE_HEIGHT: real := 90.0
}
