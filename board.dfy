/**
 * The gesture logic of the board component (src/components/Board.tsx): which actions a
 * pointer event dispatches, in which order, and the trash hover/drop test on the dragged
 * note's centre. DOM rectangles are plain inputs; a missing element is `None`.
 */
module Board {
  import opened Wrappers
  import opened Notes
  import opened NoteDefaults
  import opened Reducer
  import opened ReducerProperties

  /** A bounding rectangle in screen space, reduced to its four edges. */
  datatype Rect = Rect(left: real, top: real, right: real, bottom: real)

  /** `rectContainsPoint`: the point lies in the rectangle, edges included. */
  predicate RectContainsPoint(rect: Rect, x: real, y: real)
  {
    x >= rect.left && x <= rect.right && y >= rect.top && y <= rect.bottom
  }

  /** The edges belong to the rectangle: all four corners of a non-empty rectangle are inside. */
  lemma RectEdgesAreInside(rect: Rect)
    requires rect.left <= rect.right && rect.top <= rect.bottom
    ensures RectContainsPoint(rect, rect.left, rect.top) && RectContainsPoint(rect, rect.right, rect.top)
    ensures RectContainsPoint(rect, rect.left, rect.bottom) && RectContainsPoint(rect, rect.right, rect.bottom)
  {
  }

  /**
   * The centre of a note in screen space: its board-space box shifted by the notes
   * container's top-left corner, halfway across and halfway down.
   */
  function NoteCentre(container: Rect, n: Note): (c: Point)
    ensures c.x - (container.left + n.x) == (container.left + n.x + n.width) - c.x
    ensures c.y - (container.top + n.y) == (container.top + n.y + n.height) - c.y
  {
    Point(container.left + n.x + n.width / 2.0, container.top + n.y + n.height / 2.0)
  }

  /**
   * The centre-in-trash test shared by hover feedback and the drop: `None` when there is
   * no gesture, its note is not on the board or a rectangle is missing; otherwise whether
   * the first note carrying the gesture's id has its centre in the trash rectangle.
   */
  function CentreOverTrash(s: BoardState, container: Option<Rect>, trash: Option<Rect>): (r: Option<bool>)
    ensures r.Some? <==> s.dragState.Some? && HasId(s.notes, s.dragState.value.id) && container.Some? && trash.Some?
    ensures r.Some? ==>
      var c := NoteCentre(container.value, DraggedNote(s, s.dragState.value.id));
      r.value == RectContainsPoint(trash.value, c.x, c.y)
  {
    match s.dragState
    case None => None
    case Some(drag) =>
      match Find(s.notes, drag.id)
      case None => None
      case Some(note) =>
        if container.None? || trash.None? then None
        else
          var c := NoteCentre(container.value, note);
          Some(RectContainsPoint(trash.value, c.x, c.y))
  }

  /**
   * The payload `handleAddNote` dispatches when the board holds `noteCount` notes:
   * stacked diagonally from the initial position, default size, empty text.
   */
  function NewNotePayload(noteCount: nat): (p: NotePayload)
    ensures p.width == DEFAULT_NOTE_WIDTH && p.height == DEFAULT_NOTE_HEIGHT
    ensures p.width >= MIN_NOTE_WIDTH && p.height >= MIN_NOTE_HEIGHT
    ensures p.content == ""
    ensures p.x == p.y && p.x >= INITIAL_NOTE_X
  {
    NotePayload(
      INITIAL_NOTE_X + noteCount as real * NOTE_STACK_OFFSET,
      INITIAL_NOTE_Y + noteCount as real * NOTE_STACK_OFFSET,
      DEFAULT_NOTE_WIDTH,
      DEFAULT_NOTE_HEIGHT,
      "")
  }

  /**
   * The first note goes to the initial position and each further note one stack offset
   * further down and right than the one before.
   */
  lemma NewNotesStackDiagonally(n: nat)
    ensures NewNotePayload(0).x == INITIAL_NOTE_X && NewNotePayload(0).y == INITIAL_NOTE_Y
    ensures NewNotePayload(n + 1).x == NewNotePayload(n).x + NOTE_STACK_OFFSET
    ensures NewNotePayload(n + 1).y == NewNotePayload(n).y + NOTE_STACK_OFFSET
  {
  }

  /**
   * Adding a note from the board's button puts it last, on top of every note, at the
   * stacked position for the current count, with the default size and no text.
   */
  lemma AddNoteButtonStacksNewNote(s: BoardState, freshId: string)
    ensures var r := BoardReducer(s, AddNote(NewNotePayload(|s.notes|)), freshId);
      var n := r.notes[|s.notes|];
      && |r.notes| == |s.notes| + 1
      && r.notes[..|s.notes|] == s.notes
      && n.id == freshId
      && n.x == INITIAL_NOTE_X + |s.notes| as real * NOTE_STACK_OFFSET
      && n.y == INITIAL_NOTE_Y + |s.notes| as real * NOTE_STACK_OFFSET
      && n.width == DEFAULT_NOTE_WIDTH && n.height == DEFAULT_NOTE_HEIGHT
      && n.content == ""
      && forall i :: 0 <= i < |s.notes| ==> s.notes[i].zIndex < n.zIndex
  {
  }

  /** `handlePointerDown`: nothing from a button inside the handle, else one START_DRAG. */
  function PointerDownActions(targetInButton: bool, noteId: string, mode: DragMode, clientX: real, clientY: real): (r: seq<BoardAction>)
    ensures NoAdds(r)
    ensures targetInButton <==> |r| == 0
    ensures !targetInButton ==> r == [StartDrag(noteId, mode, clientX, clientY)]
  {
    if targetInButton then [] else [StartDrag(noteId, mode, clientX, clientY)]
  }

  /** `handlePointerMove`: nothing without a gesture, else one MOVE_DRAG to the pointer. */
  function PointerMoveActions(s: BoardState, clientX: real, clientY: real): (r: seq<BoardAction>)
    ensures NoAdds(r)
    ensures s.dragState.None? <==> |r| == 0
    ensures s.dragState.Some? ==> r == [MoveDrag(clientX, clientY)]
  {
    if s.dragState.None? then [] else [MoveDrag(clientX, clientY)]
  }

  /**
   * `handlePointerUp`: nothing without a gesture; otherwise a DELETE_NOTE of the dragged
   * note exactly when its centre is over the trash, and always an END_DRAG last.
   */
  function PointerUpActions(s: BoardState, container: Option<Rect>, trash: Option<Rect>): (r: seq<BoardAction>)
    ensures NoAdds(r)
    ensures s.dragState.None? <==> |r| == 0
    ensures s.dragState.Some? ==> 1 <= |r| <= 2 && r[|r| - 1] == EndDrag
    ensures |r| == 2 <==> CentreOverTrash(s, container, trash) == Some(true)
    ensures |r| == 2 ==> r[0] == DeleteNote(s.dragState.value.id)
  {
    if s.dragState.None? then []
    else if CentreOverTrash(s, container, trash) == Some(true) then [DeleteNote(s.dragState.value.id), EndDrag]
    else [EndDrag]
  }

  /**
   * A pointer-down outside any button on a note of the board starts a gesture on that
   * note and brings it to the front; one inside a button changes nothing.
   */
  lemma PointerDownStartsGesture(s: BoardState, targetInButton: bool, noteId: string, mode: DragMode, clientX: real, clientY: real)
    requires HasId(s.notes, noteId)
    ensures var r := DispatchAll(s, PointerDownActions(targetInButton, noteId, mode, clientX, clientY));
      && (targetInButton ==> r == s)
      && (!targetInButton ==>
            && r.dragState.Some? && r.dragState.value.id == noteId && r.dragState.value.mode == mode
            && forall i :: 0 <= i < |r.notes| && r.notes[i].id == noteId ==> r.notes[i].zIndex == MaxZIndex(r.notes))
  {
  }

  /**
   * Releasing the pointer during a gesture on a board that keeps its invariant ends the
   * gesture, and removes the dragged note exactly when its centre was over the trash;
   * with both rectangles present the test always reaches a verdict.
   */
  lemma PointerUpEndsGesture(s: BoardState, container: Option<Rect>, trash: Option<Rect>)
    requires s.dragState.Some? && DragTargetPresent(s)
    ensures var r := DispatchAll(s, PointerUpActions(s, container, trash));
      var id := s.dragState.value.id;
      var dropped := CentreOverTrash(s, container, trash) == Some(true);
      && r.dragState.None?
      && r.notes == (if dropped then WithoutId(s.notes, id) else s.notes)
      && (HasId(r.notes, id) <==> !dropped)
      && (container.Some? && trash.Some? ==> CentreOverTrash(s, container, trash).Some?)
  {
    var acts := PointerUpActions(s, container, trash);
    var id := s.dragState.value.id;
    if CentreOverTrash(s, container, trash) == Some(true) {
      var s1 := BoardReducer(s, DeleteNote(id), UNREAD_ID);
      DeleteNoteRemovesExactlyThatNote(s, id);
      assert DispatchAll(s, acts) == DispatchAll(s1, [EndDrag]);
      assert DispatchAll(s1, [EndDrag]) == BoardReducer(s1, EndDrag, UNREAD_ID);
    } else {
      assert DispatchAll(s, acts) == BoardReducer(s, EndDrag, UNREAD_ID);
    }
  }

  /** Pointer handlers never shrink a note below the minimum size. */
  lemma {:induction false} DispatchKeepsMinimumSize(s: BoardState, actions: seq<BoardAction>)
    requires NoAdds(actions)
    requires AtLeastSize(s.notes, MIN_NOTE_WIDTH, MIN_NOTE_HEIGHT)
    ensures AtLeastSize(DispatchAll(s, actions).notes, MIN_NOTE_WIDTH, MIN_NOTE_HEIGHT)
    decreases |actions|
  {
    if |actions| > 0 {
      ReducerKeepsMinimumSize(s, actions[0], UNREAD_ID);
      DispatchKeepsMinimumSize(BoardReducer(s, actions[0], UNREAD_ID), actions[1..]);
    }
  }

  /** The two notes the board's button adds first, with the ids the reducer drew for them. */
  function FirstTwoNotes(id1: string, id2: string): seq<Note>
  {
    [Note(id1, 40.0, 40.0, 200.0, 160.0, "", 1), Note(id2, 60.0, 60.0, 200.0, 160.0, "", 2)]
  }

  /** Two clicks on the button of an empty board: (40, 40) with zIndex 1, then (60, 60) with zIndex 2. */
  lemma AddTwoNotesToEmptyBoard(id1: string, id2: string)
    ensures var s1 := BoardReducer(InitialBoardState(), AddNote(NewNotePayload(0)), id1);
      BoardReducer(s1, AddNote(NewNotePayload(1)), id2) == BoardState(FirstTwoNotes(id1, id2), None)
  {
  }

  /** Grabbing the second note's header at (100, 100) brings it to the front and records the offset (40, 40). */
  lemma GrabSecondNote(id1: string, id2: string)
    requires id1 != id2
    ensures
      var ns := FirstTwoNotes(id1, id2);
      DispatchAll(BoardState(ns, None), PointerDownActions(false, id2, Move, 100.0, 100.0))
      == BoardState([ns[0], ns[1].(zIndex := 3)],
                    Some(DragState(id2, Move, Point(100.0, 100.0), Geometry(60.0, 60.0, 200.0, 160.0), Some(Point(40.0, 40.0)))))
  {
  }

  /** Moving the pointer to (150, 120) puts the grabbed note at (110, 80): shifted by exactly (+50, +20). */
  lemma MoveSecondNote(id1: string, id2: string)
    requires id1 != id2
    ensures
      var ns := FirstTwoNotes(id1, id2);
      var drag := DragState(id2, Move, Point(100.0, 100.0), Geometry(60.0, 60.0, 200.0, 160.0), Some(Point(40.0, 40.0)));
      var s := BoardState([ns[0], ns[1].(zIndex := 3)], Some(drag));
      DispatchAll(s, PointerMoveActions(s, 150.0, 120.0))
      == BoardState([ns[0], ns[1].(x := 110.0, y := 80.0, zIndex := 3)], Some(drag))
  {
  }

  /**
   * Releasing with the moved note's centre, (210, 160), inside a trash at
   * [200, 248] x [150, 198] deletes it and ends the gesture; the first note stays.
   */
  lemma DropSecondNoteOnTrash(id1: string, id2: string)
    requires id1 != id2
    ensures
      var ns := FirstTwoNotes(id1, id2);
      var drag := DragState(id2, Move, Point(100.0, 100.0), Geometry(60.0, 60.0, 200.0, 160.0), Some(Point(40.0, 40.0)));
      var s := BoardState([ns[0], ns[1].(x := 110.0, y := 80.0, zIndex := 3)], Some(drag));
      var container := Rect(0.0, 0.0, 800.0, 600.0);
      var trash := Rect(200.0, 150.0, 248.0, 198.0);
      DispatchAll(s, PointerUpActions(s, Some(container), Some(trash))) == BoardState([ns[0]], None)
  {
    var ns := FirstTwoNotes(id1, id2);
    var drag := DragState(id2, Move, Point(100.0, 100.0), Geometry(60.0, 60.0, 200.0, 160.0), Some(Point(40.0, 40.0)));
    var s := BoardState([ns[0], ns[1].(x := 110.0, y := 80.0, zIndex := 3)], Some(drag));
    var container := Rect(0.0, 0.0, 800.0, 600.0);
    var trash := Rect(200.0, 150.0, 248.0, 198.0);
    assert IndexOfId(s.notes, id2) == 1;
    assert NoteCentre(container, s.notes[1]) == Point(210.0, 160.0);
    assert CentreOverTrash(s, Some(container), Some(trash)) == Some(true);
    assert s.notes[1..][1..] == [];
    assert WithoutId(s.notes, id2) == [ns[0]];
    PointerUpEndsGesture(s, Some(container), Some(trash));
  }

  /**
   * The board component: the reducer's current state and the trash hover flag. Handlers
   * read the state as of the last render (`state` on entry) and apply each dispatched
   * action to the reducer in order.
   */
  class BoardComponent {
    var state: BoardState
    var isOverTrash: bool

    ghost predicate Valid()
      reads this
    {
      DragTargetPresent(state)
    }

    /** Mounting: the initial state with the notes `loaded` from storage, no hover. */
    constructor (loaded: seq<Note>)
      ensures Valid()
      ensures state == InitialBoardState().(notes := loaded)
      ensures !isOverTrash
    {
      state := InitialBoardState().(notes := loaded);
      isOverTrash := false;
    }

    /** `dispatch` for every action except ADD_NOTE. */
    method Dispatch(action: BoardAction)
      requires Valid() && !action.AddNote?
      modifies this`state
      ensures Valid()
      ensures state == BoardReducer(old(state), action, UNREAD_ID)
    {
      state := BoardReducer(state, action, UNREAD_ID);
    }

    /** `handleAddNote`: one ADD_NOTE at the stacked position; `freshId` is the id the reducer draws. */
    method HandleAddNote(freshId: string)
      requires Valid()
      modifies this`state
      ensures Valid()
      ensures state == BoardReducer(old(state), AddNote(NewNotePayload(|old(state).notes|)), freshId)
    {
      var payload := NewNotePayload(|state.notes|);
      state := BoardReducer(state, AddNote(payload), freshId);
    }

    /** `handleDeleteNote`: one DELETE_NOTE. */
    method HandleDeleteNote(noteId: string)
      requires Valid()
      modifies this`state
      ensures Valid()
      ensures state == BoardReducer(old(state), DeleteNote(noteId), UNREAD_ID)
    {
      Dispatch(DeleteNote(noteId));
    }

    /** `handleContentChange`: one UPDATE_CONTENT. */
    method HandleContentChange(noteId: string, content: string)
      requires Valid()
      modifies this`state
      ensures Valid()
      ensures state == BoardReducer(old(state), UpdateContent(noteId, content), UNREAD_ID)
    {
      Dispatch(UpdateContent(noteId, content));
    }

    /** `handlePointerDown`; `targetInButton` is whether the event's target lies inside a button. */
    method HandlePointerDown(noteId: string, mode: DragMode, targetInButton: bool, clientX: real, clientY: real)
      requires Valid()
      modifies this`state
      ensures Valid()
      ensures state == DispatchAll(old(state), PointerDownActions(targetInButton, noteId, mode, clientX, clientY))
    {
      if targetInButton {
        return;
      }
      Dispatch(StartDrag(noteId, mode, clientX, clientY));
    }

    /** `updateTrashHoverFromNoteCenter`, run against the render-time state `rendered`. */
    method UpdateTrashHoverFromNoteCenter(rendered: BoardState, container: Option<Rect>, trash: Option<Rect>)
      modifies this`isOverTrash
      ensures isOverTrash == match CentreOverTrash(rendered, container, trash)
                             case Some(over) => over
                             case None => old(isOverTrash)
    {
      if rendered.dragState.None? {
        return;
      }
      var note := Find(rendered.notes, rendered.dragState.value.id);
      if note.None? || container.None? || trash.None? {
        return;
      }
      var centre := NoteCentre(container.value, note.value);
      isOverTrash := RectContainsPoint(trash.value, centre.x, centre.y);
    }

    /**
     * `handlePointerMove`: one MOVE_DRAG, then the hover flag from the dragged note's
     * centre as it was BEFORE this move (the handler reads the render-time state).
     */
    method HandlePointerMove(clientX: real, clientY: real, container: Option<Rect>, trash: Option<Rect>)
      requires Valid()
      modifies this
      ensures Valid()
      ensures state == DispatchAll(old(state), PointerMoveActions(old(state), clientX, clientY))
      ensures isOverTrash == match CentreOverTrash(old(state), container, trash)
                             case Some(over) => over
                             case None => old(isOverTrash)
    {
      var rendered := state;
      if rendered.dragState.None? {
        return;
      }
      Dispatch(MoveDrag(clientX, clientY));
      UpdateTrashHoverFromNoteCenter(rendered, container, trash);
    }

    /**
     * `handlePointerUp`: with a gesture in progress, clear the hover flag, dispatch a
     * DELETE_NOTE when the dragged note's centre is over the trash, then END_DRAG.
     */
    method HandlePointerUp(container: Option<Rect>, trash: Option<Rect>)
      requires Valid()
      modifies this
      ensures Valid()
      ensures state == DispatchAll(old(state), PointerUpActions(old(state), container, trash))
      ensures isOverTrash == if old(state).dragState.Some? then false else old(isOverTrash)
    {
      var rendered := state;
      if rendered.dragState.None? {
        return;
      }
      ghost var actions := PointerUpActions(rendered, container, trash);
      var dragId := rendered.dragState.value.id;
      var note := Find(rendered.notes, dragId);
      isOverTrash := false;
      if note.Some? && container.Some? && trash.Some? {
        var centre := NoteCentre(container.value, note.value);
        if RectContainsPoint(trash.value, centre.x, centre.y) {
          Dispatch(DeleteNote(note.value.id));
        }
      }
      ghost var beforeEnd := state;
      Dispatch(EndDrag);
      if |actions| == 2 {
        assert beforeEnd == BoardReducer(rendered, actions[0], UNREAD_ID);
        assert DispatchAll(rendered, actions) == DispatchAll(beforeEnd, [EndDrag]);
      } else {
        assert beforeEnd == rendered;
        assert actions == [EndDrag];
      }
    }
  }
}
