/**
 * The board state machine of src/state/boardReducer.ts: a pure, total transition
 * function from a board state and one of six actions to the next board state.
 */
module Reducer {
  import opened Wrappers
  import opened Notes
  import opened NoteDefaults

  /** What a gesture does to its note: drag it by the header, or resize it by the corner. */
  datatype DragMode = Move | Resize

  datatype Point = Point(x: real, y: real)

  /** A note's position and size, recorded when a gesture starts. */
  datatype Geometry = Geometry(x: real, y: real, width: real, height: real)

  /**
   * The gesture in progress: which note, how, where the pointer went down, the note's
   * geometry at that moment and, for a move, where inside the note it was grabbed.
   */
  datatype DragState = DragState(
    id: string,
    mode: DragMode,
    pointerStart: Point,
    noteStart: Geometry,
    offset: Option<Point>
  )

  datatype BoardState = BoardState(notes: seq<Note>, dragState: Option<DragState>)

  datatype BoardAction =
    | AddNote(payload: NotePayload)
    | StartDrag(id: string, mode: DragMode, pointerX: real, pointerY: real)
    | MoveDrag(pointerX: real, pointerY: real)
    | EndDrag
    | DeleteNote(noteId: string)
    | UpdateContent(id: string, content: string)

  /** The board's invariant: a gesture, when there is one, targets a note on the board. */
  predicate DragTargetPresent(s: BoardState)
  {
    s.dragState.None? || HasId(s.notes, s.dragState.value.id)
  }

  /** The state before anything is loaded or dispatched: no notes and no gesture. */
  function InitialBoardState(): (s: BoardState)
    ensures DragTargetPresent(s)
    ensures |s.notes| == 0
  {
    BoardState([], None)
  }

  /** `Math.max` on two numbers. */
  function MaxReal(a: real, b: real): (m: real)
    ensures m >= a && m >= b
    ensures m == a || m == b
  {
    if a >= b then a else b
  }

  /** The largest zIndex of a non-empty list of notes. */
  function HighestZIndex(notes: seq<Note>): (m: int)
    requires |notes| > 0
    ensures forall i :: 0 <= i < |notes| ==> notes[i].zIndex <= m
    ensures exists i :: 0 <= i < |notes| && notes[i].zIndex == m
    decreases |notes|
  {
    if |notes| == 1 then notes[0].zIndex
    else
      var rest := HighestZIndex(notes[1..]);
      assert forall i :: 1 <= i < |notes| ==> notes[i] == notes[1..][i - 1];
      if notes[0].zIndex >= rest then notes[0].zIndex else rest
  }

  /** `getMaxZIndex`: 0 on an empty board, otherwise the largest zIndex present. */
  function MaxZIndex(notes: seq<Note>): (m: int)
    ensures |notes| == 0 ==> m == 0
    ensures forall i :: 0 <= i < |notes| ==> notes[i].zIndex <= m
    ensures |notes| > 0 ==> exists i :: 0 <= i < |notes| && notes[i].zIndex == m
  {
    if |notes| == 0 then 0 else HighestZIndex(notes)
  }

  /** Position of the first note with `id`, or `|notes|` when there is none. */
  function IndexOfId(notes: seq<Note>, id: string): (k: nat)
    ensures k <= |notes|
    ensures forall j :: 0 <= j < k ==> notes[j].id != id
    ensures k < |notes| ==> notes[k].id == id
    decreases |notes|
  {
    if |notes| == 0 then 0
    else if notes[0].id == id then 0
    else 1 + IndexOfId(notes[1..], id)
  }

  /** `notes.find(n => n.id === id)`: the first note carrying `id`, if any. */
  function Find(notes: seq<Note>, id: string): (r: Option<Note>)
    ensures r.None? <==> !HasId(notes, id)
    ensures r.Some? ==> r.value.id == id && r.value in notes
    ensures r.Some? ==> r.value == notes[IndexOfId(notes, id)]
  {
    var k := IndexOfId(notes, id);
    if k < |notes| then Some(notes[k]) else None
  }

  /** `notes.map(n => n.id === id ? f(n) : n)`: apply `f` to every note carrying `id`. */
  function UpdateWhere(notes: seq<Note>, id: string, f: Note -> Note): (r: seq<Note>)
    ensures |r| == |notes|
    ensures forall i :: 0 <= i < |r| ==> r[i] == if notes[i].id == id then f(notes[i]) else notes[i]
  {
    seq(|notes|, i requires 0 <= i < |notes| => if notes[i].id == id then f(notes[i]) else notes[i])
  }

  /** `notes.filter(n => n.id !== id)`: every note not carrying `id`, in their original order. */
  function WithoutId(notes: seq<Note>, id: string): (r: seq<Note>)
    ensures forall n :: n in r <==> n in notes && n.id != id
    ensures |r| <= |notes|
    ensures !HasId(notes, id) ==> r == notes
    decreases |notes|
  {
    if |notes| == 0 then []
    else
      assert forall i :: 1 <= i < |notes| ==> notes[i] == notes[1..][i - 1];
      (if notes[0].id == id then [] else [notes[0]]) + WithoutId(notes[1..], id)
  }

  /**
   * `boardReducer`. `freshId` stands for the value `crypto.randomUUID()` returns while
   * the reducer runs; only the ADD_NOTE branch reads it.
   */
  function BoardReducer(state: BoardState, action: BoardAction, freshId: string): (r: BoardState)
    ensures DragTargetPresent(state) ==> DragTargetPresent(r)
    ensures !action.AddNote? ==> |r.notes| <= |state.notes|
  {
    match action
    case AddNote(p) =>
      var note := Note(freshId, p.x, p.y, p.width, p.height, p.content, MaxZIndex(state.notes) + 1);
      assert state.notes <= state.notes + [note];
      state.(notes := state.notes + [note])
    case StartDrag(id, mode, pointerX, pointerY) =>
      (match Find(state.notes, id)
       case None => state
       case Some(note) =>
         var nextZ := MaxZIndex(state.notes) + 1;
         var notes := UpdateWhere(state.notes, note.id, (n: Note) => n.(zIndex := nextZ));
         var pointerStart := Point(pointerX, pointerY);
         var noteStart := Geometry(note.x, note.y, note.width, note.height);
         var offset := if mode == Move then Some(Point(pointerX - note.x, pointerY - note.y)) else None;
         assert notes[IndexOfId(state.notes, id)].id == note.id;
         BoardState(notes, Some(DragState(note.id, mode, pointerStart, noteStart, offset))))
    case MoveDrag(pointerX, pointerY) =>
      (match state.dragState
       case None => state
       case Some(drag) =>
         (match drag.mode
          case Move =>
            (match drag.offset
             case None => state
             case Some(offset) =>
               var x := pointerX - offset.x;
               var y := pointerY - offset.y;
               var notes := UpdateWhere(state.notes, drag.id, (n: Note) => n.(x := x, y := y));
               assert HasId(state.notes, drag.id) ==> HasId(notes, drag.id);
               state.(notes := notes))
          case Resize =>
            var deltaX := pointerX - drag.pointerStart.x;
            var deltaY := pointerY - drag.pointerStart.y;
            var width := MaxReal(MIN_NOTE_WIDTH, drag.noteStart.width + deltaX);
            var height := MaxReal(MIN_NOTE_HEIGHT, drag.noteStart.height + deltaY);
            var notes := UpdateWhere(state.notes, drag.id, (n: Note) => n.(width := width, height := height));
            assert HasId(state.notes, drag.id) ==> HasId(notes, drag.id);
            state.(notes := notes)))
    case EndDrag =>
      state.(dragState := None)
    case DeleteNote(noteId) =>
      var notes := WithoutId(state.notes, noteId);
      var dragState := if state.dragState.Some? && state.dragState.value.id == noteId then None else state.dragState;
      assert dragState.Some? && HasId(state.notes, dragState.value.id) ==>
        state.notes[IndexOfId(state.notes, dragState.value.id)] in notes;
      BoardState(notes, dragState)
    case UpdateContent(id, content) =>
      var notes := UpdateWhere(state.notes, id, (n: Note) => n.(content := content));
      assert state.dragState.Some? && HasId(state.notes, state.dragState.value.id) ==>
        notes[IndexOfId(state.notes, state.dragState.value.id)].id == state.dragState.value.id;
      state.(notes := notes)
  }

  /**
   * The id handed to the reducer for actions other than ADD_NOTE. Those branches never
   * read it (ReducerProperties.FreshIdOnlyMattersForAdd).
   */
  const UNREAD_ID: string := ""

  /** No action of the list is an ADD_NOTE. */
  predicate NoAdds(actions: seq<BoardAction>)
  {
    forall i :: 0 <= i < |actions| ==> !actions[i].AddNote?
  }

  /** The state after the reducer has been dispatched each action of the list, in order. */
  function DispatchAll(s: BoardState, actions: seq<BoardAction>): (r: BoardState)
    requires NoAdds(actions)
    ensures DragTargetPresent(s) ==> DragTargetPresent(r)
    decreases |actions|
  {
    if |actions| == 0 then s
    else DispatchAll(BoardReducer(s, actions[0], UNREAD_ID), actions[1..])
  }

  /** The state after one ADD_NOTE per payload, the k-th drawing the k-th fresh id. */
  function AddAll(s: BoardState, payloads: seq<NotePayload>, freshIds: seq<string>): (r: BoardState)
    requires |payloads| == |freshIds|
    ensures |r.notes| == |s.notes| + |payloads|
    ensures r.dragState == s.dragState
    decreases |payloads|
  {
    if |payloads| == 0 then s
    else AddAll(BoardReducer(s, AddNote(payloads[0]), freshIds[0]), payloads[1..], freshIds[1..])
  }

  /** The MOVE_DRAG actions a gesture dispatches for a sequence of pointer positions. */
  function MoveDrags(pointers: seq<Point>): (r: seq<BoardAction>)
    ensures |r| == |pointers| && NoAdds(r)
    ensures forall i :: 0 <= i < |r| ==> r[i] == MoveDrag(pointers[i].x, pointers[i].y)
  {
    seq(|pointers|, i requires 0 <= i < |pointers| => MoveDrag(pointers[i].x, pointers[i].y))
  }
}
