/**
 * The record for one sticky note (src/types/Note.ts). Geometry is in board space;
 * JavaScript numbers are modelled exactly, positions and sizes as `real`, the
 * stacking order as `int`.
 */
module Notes {

  /** One note: a stable id, its top-left corner, its size, its text and its stacking order. */
  datatype Note = Note(
    id: string,
    x: real,
    y: real,
    width: real,
    height: real,
    content: string,
    zIndex: int
  )

  /** A note without the two fields the reducer assigns itself (`Omit<Note, 'id' | 'zIndex'>`). */
  datatype NotePayload = NotePayload(
    x: real,
    y: real,
    width: real,
    height: real,
    content: string
  )

  /** Some note in `notes` carries `id`. */
  predicate HasId(notes: seq<Note>, id: string)
  {
    exists i :: 0 <= i < |notes| && notes[i].id == id
  }

  /** No two notes share an id. */
  predicate DistinctIds(notes: seq<Note>)
  {
    forall i, j :: 0 <= i < j < |notes| ==> notes[i].id != notes[j].id
  }

  /** Every note is at least `minWidth` wide and `minHeight` high. */
  predicate AtLeastSize(notes: seq<Note>, minWidth: real, minHeight: real)
  {
    forall i :: 0 <= i < |notes| ==> notes[i].width >= minWidth && notes[i].height >= minHeight
  }
}
