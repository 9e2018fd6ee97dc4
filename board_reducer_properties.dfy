/**
 * What each branch of the board reducer promises, the invariants every action keeps,
 * and the multi-step properties of a gesture (src/state/boardReducer.ts).
 */
module ReducerProperties {
  import opened Notes
  import opened NoteDefaults
  import opened Reducer

  /** zIndex grows strictly along the list: later notes paint on top of earlier ones. */
  predicate ZIncreasing(notes: seq<Note>)
  {
    forall i, j :: 0 <= i < j < |notes| ==> notes[i].zIndex < notes[j].zIndex
  }

  /** The note that START_DRAG on `id` picks up (the first one carrying `id`). */
  function DraggedNote(s: BoardState, id: string): (n: Note)
    requires HasId(s.notes, id)
    ensures n in s.notes && n.id == id
  {
    Find(s.notes, id).value
  }

  // ---------------------------------------------------------------- ADD_NOTE

  /**
   * ADD_NOTE appends exactly one note carrying the payload and the fresh id, stacked
   * strictly above every existing note; earlier notes and the gesture are untouched.
   */
  lemma AddNoteAppendsOnTop(s: BoardState, p: NotePayload, freshId: string)
    ensures var r := BoardReducer(s, AddNote(p), freshId);
      && |r.notes| == |s.notes| + 1
      && r.notes[..|s.notes|] == s.notes
      && r.dragState == s.dragState
      && var n := r.notes[|s.notes|];
      && n == Note(freshId, p.x, p.y, p.width, p.height, p.content, n.zIndex)
      && n.zIndex == MaxZIndex(s.notes) + 1
      && (forall i :: 0 <= i < |s.notes| ==> s.notes[i].zIndex < n.zIndex)
      && (|s.notes| == 0 ==> n.zIndex == 1)
  {
  }

  /** One ADD_NOTE with a fresh id keeps zIndex increasing along the list and ids distinct. */
  lemma AddNoteKeepsStackOrder(s: BoardState, p: NotePayload, freshId: string)
    requires ZIncreasing(s.notes) && DistinctIds(s.notes) && !HasId(s.notes, freshId)
    ensures var r := BoardReducer(s, AddNote(p), freshId);
      ZIncreasing(r.notes) && DistinctIds(r.notes)
  {
  }

  /**
   * A run of ADD_NOTE actions from any board: the existing notes stay first and unchanged,
   * the k-th new note carries the k-th payload and the k-th fresh id, the new notes are
   * stacked in creation order, and each of them sits above every note that was there before.
   */
  lemma {:induction false} AddAllFromAnyBoard(s: BoardState, payloads: seq<NotePayload>, freshIds: seq<string>)
    requires |payloads| == |freshIds|
    ensures var r := AddAll(s, payloads, freshIds);
      && r.notes[..|s.notes|] == s.notes
      && r.dragState == s.dragState
      && (forall k :: 0 <= k < |payloads| ==>
            var n := r.notes[|s.notes| + k];
            var p := payloads[k];
            n == Note(freshIds[k], p.x, p.y, p.width, p.height, p.content, n.zIndex))
      && ZIncreasing(r.notes[|s.notes|..])
      && (forall i, j :: 0 <= i < |s.notes| <= j < |r.notes| ==> r.notes[i].zIndex < r.notes[j].zIndex)
    decreases |payloads|
  {
    var r := AddAll(s, payloads, freshIds);
    if |payloads| == 0 {
      assert r.notes[|s.notes|..] == [];
    } else {
      var s1 := BoardReducer(s, AddNote(payloads[0]), freshIds[0]);
      assert r == AddAll(s1, payloads[1..], freshIds[1..]);
      AddNoteAppendsOnTop(s, payloads[0], freshIds[0]);
      AddAllFromAnyBoard(s1, payloads[1..], freshIds[1..]);
      StackGrowsOnTop(s.notes, s1.notes, r.notes);
    }
  }

  /**
   * The stacking step behind AddAllFromAnyBoard: a note put on top of `a` to give `b`,
   * then a stack `r` grown on top of `b`, is a stack grown on top of `a`.
   */
  lemma StackGrowsOnTop(a: seq<Note>, b: seq<Note>, r: seq<Note>)
    requires |b| == |a| + 1 && b[..|a|] == a
    requires forall i :: 0 <= i < |a| ==> a[i].zIndex < b[|a|].zIndex
    requires |r| >= |b| && r[..|b|] == b
    requires ZIncreasing(r[|b|..])
    requires forall i, j :: 0 <= i < |b| <= j < |r| ==> r[i].zIndex < r[j].zIndex
    ensures r[..|a|] == a
    ensures ZIncreasing(r[|a|..])
    ensures forall i, j :: 0 <= i < |a| <= j < |r| ==> r[i].zIndex < r[j].zIndex
  {
    var m := |a|;
    assert r[..m] == r[..m + 1][..m];
    assert r[m] == r[..m + 1][m];
    forall i, j | 0 <= i < j < |r[m..]|
      ensures r[m..][i].zIndex < r[m..][j].zIndex
    {
      if i > 0 {
        assert r[m..][i] == r[m + 1..][i - 1] && r[m..][j] == r[m + 1..][j - 1];
      }
    }
    forall i, j | 0 <= i < m <= j < |r|
      ensures r[i].zIndex < r[j].zIndex
    {
      assert r[i] == r[..m][i];
    }
  }

  /**
   * Corollary for a board whose zIndex order already follows the list order and whose ids
   * are distinct: with fresh, pairwise distinct ids drawn, the whole list keeps both.
   */
  lemma AddAllStacksInCreationOrder(s: BoardState, payloads: seq<NotePayload>, freshIds: seq<string>)
    requires |payloads| == |freshIds|
    requires ZIncreasing(s.notes) && DistinctIds(s.notes)
    requires forall k :: 0 <= k < |freshIds| ==> !HasId(s.notes, freshIds[k])
    requires forall k, l :: 0 <= k < l < |freshIds| ==> freshIds[k] != freshIds[l]
    ensures var r := AddAll(s, payloads, freshIds);
      && ZIncreasing(r.notes) && DistinctIds(r.notes)
      && r.notes[..|s.notes|] == s.notes
  {
    var r := AddAll(s, payloads, freshIds);
    AddAllFromAnyBoard(s, payloads, freshIds);
    StackOnOrderedBase(s.notes, r.notes, freshIds);
  }

  /**
   * The list step behind AddAllStacksInCreationOrder: a z-ordered stack with fresh,
   * distinct ids grown on top of a z-ordered base with distinct ids is z-ordered with
   * distinct ids as a whole.
   */
  lemma StackOnOrderedBase(a: seq<Note>, r: seq<Note>, ids: seq<string>)
    requires |r| == |a| + |ids| && r[..|a|] == a
    requires ZIncreasing(a) && DistinctIds(a)
    requires forall k :: 0 <= k < |ids| ==> r[|a| + k].id == ids[k]
    requires forall k :: 0 <= k < |ids| ==> !HasId(a, ids[k])
    requires forall k, l :: 0 <= k < l < |ids| ==> ids[k] != ids[l]
    requires ZIncreasing(r[|a|..])
    requires forall i, j :: 0 <= i < |a| <= j < |r| ==> r[i].zIndex < r[j].zIndex
    ensures ZIncreasing(r) && DistinctIds(r)
  {
    var m := |a|;
    forall i | 0 <= i < m ensures r[i] == a[i] {
      assert r[i] == r[..m][i];
    }
    forall j | m <= j < |r| ensures r[j].id == ids[j - m] {
      assert r[m + (j - m)] == r[j];
    }
    forall i, j | 0 <= i < j < |r| ensures r[i].zIndex < r[j].zIndex {
      if m <= i {
        assert r[i] == r[m..][i - m] && r[j] == r[m..][j - m];
      }
    }
    forall i, j | 0 <= i < j < |r| ensures r[i].id != r[j].id {
      if i < m <= j {
        assert !HasId(a, ids[j - m]);
      }
    }
  }

  // -------------------------------------------------------------- START_DRAG

  /** START_DRAG on an id no note carries returns the state unchanged. */
  lemma StartDragOnMissingNoteIsNoOp(s: BoardState, id: string, mode: DragMode, px: real, py: real)
    requires !HasId(s.notes, id)
    ensures BoardReducer(s, StartDrag(id, mode, px, py), UNREAD_ID) == s
  {
  }

  /**
   * START_DRAG on a present note brings it to the front: every note carrying the id gets
   * the zIndex one above the board's highest before the gesture, hence strictly above
   * every other note's, nothing else about any note changes, and
   * the gesture records the id, the mode, the pointer start and the note's geometry,
   * with the grab offset present exactly in MOVE mode.
   */
  lemma StartDragBringsToFront(s: BoardState, id: string, mode: DragMode, px: real, py: real)
    requires HasId(s.notes, id)
    ensures var r := BoardReducer(s, StartDrag(id, mode, px, py), UNREAD_ID);
      var n := DraggedNote(s, id);
      && |r.notes| == |s.notes|
      && (forall i :: 0 <= i < |s.notes| ==> r.notes[i] == s.notes[i].(zIndex := r.notes[i].zIndex))
      && (forall i :: 0 <= i < |s.notes| && s.notes[i].id != id ==> r.notes[i] == s.notes[i])
      && (forall i, j :: 0 <= i < |s.notes| && 0 <= j < |s.notes| && s.notes[i].id == id && s.notes[j].id != id ==>
            r.notes[j].zIndex < r.notes[i].zIndex)
      && (forall i :: 0 <= i < |s.notes| && s.notes[i].id == id ==> r.notes[i].zIndex == MaxZIndex(s.notes) + 1)
      && (forall i :: 0 <= i < |s.notes| && s.notes[i].id == id ==> r.notes[i].zIndex == MaxZIndex(r.notes))
      && r.dragState.Some?
      && r.dragState.value.id == id
      && r.dragState.value.mode == mode
      && r.dragState.value.pointerStart == Point(px, py)
      && r.dragState.value.noteStart == Geometry(n.x, n.y, n.width, n.height)
      && (r.dragState.value.offset.Some? <==> mode == Move)
      && (mode == Move ==> r.dragState.value.offset.value == Point(px - n.x, py - n.y))
  {
    var r := BoardReducer(s, StartDrag(id, mode, px, py), UNREAD_ID);
    var top := MaxZIndex(s.notes) + 1;
    forall i | 0 <= i < |s.notes| && s.notes[i].id == id
      ensures r.notes[i].zIndex == MaxZIndex(r.notes)
    {
      var m := MaxZIndex(r.notes);
      var w :| 0 <= w < |r.notes| && r.notes[w].zIndex == m;
      assert r.notes[w].zIndex <= top;
    }
  }

  // --------------------------------------------------------------- MOVE_DRAG

  /** MOVE_DRAG without a gesture in progress changes nothing. */
  lemma MoveDragWithoutGestureIsNoOp(s: BoardState, px: real, py: real)
    requires s.dragState.None?
    ensures BoardReducer(s, MoveDrag(px, py), UNREAD_ID) == s
  {
  }

  /**
   * MOVE_DRAG in MOVE mode places the dragged note at the pointer minus the grab offset
   * and changes nothing else: not its size, text or zIndex, no other note, not the gesture.
   */
  lemma MoveDragFollowsPointer(s: BoardState, px: real, py: real)
    requires s.dragState.Some? && s.dragState.value.mode == Move && s.dragState.value.offset.Some?
    ensures var r := BoardReducer(s, MoveDrag(px, py), UNREAD_ID);
      var drag := s.dragState.value;
      && r.dragState == s.dragState
      && |r.notes| == |s.notes|
      && forall i :: 0 <= i < |s.notes| ==>
           if s.notes[i].id == drag.id
           then r.notes[i] == s.notes[i].(x := px - drag.offset.value.x, y := py - drag.offset.value.y)
           else r.notes[i] == s.notes[i]
  {
  }

  /**
   * MOVE_DRAG in RESIZE mode sizes the dragged note from its size at the start of the
   * gesture plus the total pointer displacement, clamped below by the minimum size; its
   * position and everything else stay as they were.
   */
  lemma MoveDragResizesClamped(s: BoardState, px: real, py: real)
    requires s.dragState.Some? && s.dragState.value.mode == Resize
    ensures var r := BoardReducer(s, MoveDrag(px, py), UNREAD_ID);
      var drag := s.dragState.value;
      && r.dragState == s.dragState
      && |r.notes| == |s.notes|
      && forall i :: 0 <= i < |s.notes| ==>
           if s.notes[i].id == drag.id
           then
             && r.notes[i] == s.notes[i].(width := r.notes[i].width, height := r.notes[i].height)
             && r.notes[i].width == MaxReal(MIN_NOTE_WIDTH, drag.noteStart.width + (px - drag.pointerStart.x))
             && r.notes[i].height == MaxReal(MIN_NOTE_HEIGHT, drag.noteStart.height + (py - drag.pointerStart.y))
             && r.notes[i].width >= MIN_NOTE_WIDTH && r.notes[i].height >= MIN_NOTE_HEIGHT
           else r.notes[i] == s.notes[i]
  {
  }

  /**
   * Two MOVE_DRAGs in a row end where the second alone would: nothing is accumulated
   * from the intermediate pointer position, in either mode.
   */
  lemma MoveDragLastPointerWins(s: BoardState, p: Point, q: Point)
    ensures BoardReducer(BoardReducer(s, MoveDrag(p.x, p.y), UNREAD_ID), MoveDrag(q.x, q.y), UNREAD_ID)
         == BoardReducer(s, MoveDrag(q.x, q.y), UNREAD_ID)
  {
  }

  /**
   * However the pointer wanders during a gesture, the board ends exactly as a single
   * MOVE_DRAG to the final pointer position would leave it: positions and sizes do not drift.
   */
  lemma {:induction false} GestureDependsOnlyOnLastPointer(s: BoardState, pointers: seq<Point>)
    requires |pointers| > 0
    ensures var last := pointers[|pointers| - 1];
      DispatchAll(s, MoveDrags(pointers)) == BoardReducer(s, MoveDrag(last.x, last.y), UNREAD_ID)
    decreases |pointers|
  {
    var acts := MoveDrags(pointers);
    var s1 := BoardReducer(s, acts[0], UNREAD_ID);
    assert DispatchAll(s, acts) == DispatchAll(s1, acts[1..]);
    if |pointers| > 1 {
      assert acts[1..] == MoveDrags(pointers[1..]);
      GestureDependsOnlyOnLastPointer(s1, pointers[1..]);
      MoveDragLastPointerWins(s, pointers[0], pointers[|pointers| - 1]);
    } else {
      assert acts[1..] == [];
    }
  }

  /**
   * A whole MOVE gesture: after START_DRAG at `p0` and any non-empty run of MOVE_DRAGs,
   * the note sits at the final pointer minus the grab offset taken at `p0`, on top, with
   * its size and text unchanged.
   */
  lemma MoveGestureEndsAtLastPointer(s: BoardState, id: string, p0: Point, pointers: seq<Point>)
    requires HasId(s.notes, id) && |pointers| > 0
    ensures var s1 := BoardReducer(s, StartDrag(id, Move, p0.x, p0.y), UNREAD_ID);
      var r := DispatchAll(s1, MoveDrags(pointers));
      var n0 := DraggedNote(s, id);
      var last := pointers[|pointers| - 1];
      && |r.notes| == |s.notes|
      && r.dragState == s1.dragState
      && forall i :: 0 <= i < |s.notes| && s.notes[i].id == id ==>
           && r.notes[i].x == last.x - (p0.x - n0.x)
           && r.notes[i].y == last.y - (p0.y - n0.y)
           && r.notes[i].width == s.notes[i].width && r.notes[i].height == s.notes[i].height
           && r.notes[i].content == s.notes[i].content
           && r.notes[i].zIndex == MaxZIndex(s.notes) + 1
  {
    var s1 := BoardReducer(s, StartDrag(id, Move, p0.x, p0.y), UNREAD_ID);
    var last := pointers[|pointers| - 1];
    StartDragBringsToFront(s, id, Move, p0.x, p0.y);
    GestureDependsOnlyOnLastPointer(s1, pointers);
    MoveDragFollowsPointer(s1, last.x, last.y);
  }

  /**
   * A whole RESIZE gesture: after START_DRAG at `p0` and any non-empty run of MOVE_DRAGs,
   * the note's size is its start size plus the total displacement, never below the
   * minimum, and its position is where it was.
   */
  lemma ResizeGestureEndsAtLastPointer(s: BoardState, id: string, p0: Point, pointers: seq<Point>)
    requires HasId(s.notes, id) && |pointers| > 0
    ensures var s1 := BoardReducer(s, StartDrag(id, Resize, p0.x, p0.y), UNREAD_ID);
      var r := DispatchAll(s1, MoveDrags(pointers));
      var n0 := DraggedNote(s, id);
      var last := pointers[|pointers| - 1];
      && |r.notes| == |s.notes|
      && r.dragState == s1.dragState
      && forall i :: 0 <= i < |s.notes| && s.notes[i].id == id ==>
           && r.notes[i].width == MaxReal(MIN_NOTE_WIDTH, n0.width + (last.x - p0.x))
           && r.notes[i].height == MaxReal(MIN_NOTE_HEIGHT, n0.height + (last.y - p0.y))
           && r.notes[i].width >= MIN_NOTE_WIDTH && r.notes[i].height >= MIN_NOTE_HEIGHT
           && r.notes[i].x == s.notes[i].x && r.notes[i].y == s.notes[i].y
           && r.notes[i].content == s.notes[i].content
  {
    var s1 := BoardReducer(s, StartDrag(id, Resize, p0.x, p0.y), UNREAD_ID);
    var last := pointers[|pointers| - 1];
    StartDragBringsToFront(s, id, Resize, p0.x, p0.y);
    GestureDependsOnlyOnLastPointer(s1, pointers);
    MoveDragResizesClamped(s1, last.x, last.y);
  }

  // ---------------------------------------------------------------- END_DRAG

  /** END_DRAG keeps the notes, clears the gesture, and a second END_DRAG changes nothing. */
  lemma EndDragClearsGesture(s: BoardState)
    ensures var r := BoardReducer(s, EndDrag, UNREAD_ID);
      && r.notes == s.notes
      && r.dragState.None?
      && BoardReducer(r, EndDrag, UNREAD_ID) == r
  {
  }

  // ------------------------------------------------------------- DELETE_NOTE

  /** Filtering distributes over concatenation, so the kept notes stay in their original order. */
  lemma {:induction false} WithoutIdKeepsOrder(a: seq<Note>, b: seq<Note>, id: string)
    ensures WithoutId(a + b, id) == WithoutId(a, id) + WithoutId(b, id)
    decreases |a|
  {
    if |a| > 0 {
      assert (a + b)[1..] == a[1..] + b;
      WithoutIdKeepsOrder(a[1..], b, id);
    } else {
      assert a + b == b;
    }
  }

  /** Removing the notes with one id from a list with distinct ids leaves distinct ids. */
  lemma {:induction false} WithoutIdKeepsIdsDistinct(notes: seq<Note>, id: string)
    requires DistinctIds(notes)
    ensures DistinctIds(WithoutId(notes, id))
    decreases |notes|
  {
    if |notes| > 0 {
      var rest := WithoutId(notes[1..], id);
      WithoutIdKeepsIdsDistinct(notes[1..], id);
      if notes[0].id != id {
        forall j | 0 <= j < |rest| ensures rest[j].id != notes[0].id {
          assert rest[j] in notes[1..];
          var k :| 0 <= k < |notes[1..]| && notes[1..][k] == rest[j];
          assert notes[k + 1] == rest[j];
        }
        assert WithoutId(notes, id) == [notes[0]] + rest;
      }
    }
  }

  /**
   * DELETE_NOTE removes every note carrying the id, keeps all other notes unchanged and
   * in order, and clears the gesture exactly when the gesture was on that note.
   */
  lemma DeleteNoteRemovesExactlyThatNote(s: BoardState, id: string)
    ensures var r := BoardReducer(s, DeleteNote(id), UNREAD_ID);
      && !HasId(r.notes, id)
      && (forall n :: n in r.notes <==> n in s.notes && n.id != id)
      && r.notes == WithoutId(s.notes, id)
      && (r.dragState.None? <==> s.dragState.None? || s.dragState.value.id == id)
      && (r.dragState.Some? ==> r.dragState == s.dragState)
  {
  }

  /** On a board that keeps its invariant, DELETE_NOTE of an id no note carries is a no-op. */
  lemma DeleteMissingNoteIsNoOp(s: BoardState, id: string)
    requires DragTargetPresent(s) && !HasId(s.notes, id)
    ensures BoardReducer(s, DeleteNote(id), UNREAD_ID) == s
  {
  }

  // ---------------------------------------------------------- UPDATE_CONTENT

  /**
   * UPDATE_CONTENT replaces the text of the notes carrying the id and touches nothing
   * else; with no such note it is a no-op.
   */
  lemma UpdateContentChangesOnlyText(s: BoardState, id: string, text: string)
    ensures var r := BoardReducer(s, UpdateContent(id, text), UNREAD_ID);
      && r.dragState == s.dragState
      && |r.notes| == |s.notes|
      && (forall i :: 0 <= i < |s.notes| ==>
            r.notes[i] == if s.notes[i].id == id then s.notes[i].(content := text) else s.notes[i])
      && (!HasId(s.notes, id) ==> r == s)
  {
  }

  // ------------------------------------------------------ across all actions

  /** Only ADD_NOTE reads the fresh id; every other action gives the same state whatever it is. */
  lemma FreshIdOnlyMattersForAdd(s: BoardState, a: BoardAction, id1: string, id2: string)
    requires !a.AddNote?
    ensures BoardReducer(s, a, id1) == BoardReducer(s, a, id2)
  {
  }

  /** Every action keeps ids distinct, provided an added note's id is fresh. */
  lemma ReducerKeepsIdsDistinct(s: BoardState, a: BoardAction, freshId: string)
    requires DistinctIds(s.notes)
    requires a.AddNote? ==> !HasId(s.notes, freshId)
    ensures DistinctIds(BoardReducer(s, a, freshId).notes)
  {
    var r := BoardReducer(s, a, freshId);
    match a
    case DeleteNote(id) => WithoutIdKeepsIdsDistinct(s.notes, id);
    case AddNote(p) =>
      forall i, j | 0 <= i < j < |r.notes| ensures r.notes[i].id != r.notes[j].id {
        if j == |s.notes| {
          assert r.notes[i] == s.notes[i];
        }
      }
    case _ =>
      assert |r.notes| == |s.notes|;
      forall i | 0 <= i < |s.notes| ensures r.notes[i].id == s.notes[i].id {
      }
  }

  /**
   * No action shrinks a note below the minimum size, provided added notes start at or
   * above it; a resize gesture clamps, and every other action keeps width and height.
   */
  lemma ReducerKeepsMinimumSize(s: BoardState, a: BoardAction, freshId: string)
    requires AtLeastSize(s.notes, MIN_NOTE_WIDTH, MIN_NOTE_HEIGHT)
    requires a.AddNote? ==> a.payload.width >= MIN_NOTE_WIDTH && a.payload.height >= MIN_NOTE_HEIGHT
    ensures AtLeastSize(BoardReducer(s, a, freshId).notes, MIN_NOTE_WIDTH, MIN_NOTE_HEIGHT)
  {
  }
}
