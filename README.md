# Sticky-notes board: a verified model of the board state machine

This project models the core of a browser sticky-notes board. Users add notes, drag them
by the header, resize them from the corner, edit their text, and delete them with a
button or by dropping them on a trash target.

The model has two parts:

- **The board reducer** (`src/state/boardReducer.ts`). It is one pure, total transition
  function from a `BoardState` (the notes in order, plus the gesture in progress if there
  is one) and one of six actions to the next state. The actions are ADD_NOTE, START_DRAG,
  MOVE_DRAG, END_DRAG, DELETE_NOTE and UPDATE_CONTENT. It is modelled as Dafny functions
  over `seq<Note>` (module `Reducer`). Lemmas state what each branch does
  (module `ReducerProperties`).
- **The gesture logic of the board component** (`src/components/Board.tsx`). This covers
  the inclusive point-in-rectangle test and the centre-over-trash test. It also covers the
  stacked placement of new notes and the actions each pointer handler dispatches, in order
  (module `Board`). The handlers are methods of a class `BoardComponent`. The class holds
  the reducer state and the trash hover flag, and each method applies its dispatched
  actions to the reducer one after another.

`src/types/Note.ts` becomes the `Note` record (module `Notes`).
`src/constants/noteDefaults.ts` becomes named constants (module `NoteDefaults`).

Numbers are exact. Positions, sizes, pointer coordinates and rectangle edges are `real`,
so the centre `x + width / 2` is computed without rounding. The stacking order `zIndex`
is an `int`, because the code only ever takes a maximum and adds one.

`crypto.randomUUID()` is the parameter `freshId` of `Reducer.BoardReducer`, and only the
ADD_NOTE branch reads it. Handlers that never add a note pass the constant
`Reducer.UNREAD_ID`. `ReducerProperties.FreshIdOnlyMattersForAdd` shows that the result
does not depend on that value.

What is proved, in brief:

- ADD_NOTE appends one note above every other.
- START_DRAG brings its note to the front and records the gesture.
- A MOVE gesture ends with the note at the last pointer position minus the grab offset.
  A RESIZE gesture ends with the start size plus the total displacement, clamped to
  120×90. In both cases nothing drifts with the intermediate pointer positions.
- END_DRAG clears the gesture and is idempotent.
- DELETE_NOTE filters by id, keeps order and clears a gesture on that note.
- UPDATE_CONTENT changes only text.
- Every action keeps "the gesture's note is on the board". Given fresh ids, every action
  keeps ids distinct. Given added notes start at or above 120×90, every action keeps notes
  at or above that size.
- A pointer-up during a gesture ends it. It removes the note exactly when the note's
  centre is over the trash.

In these details the model follows the code as written:

- `getMaxZIndex` returns the largest zIndex when there are notes and falls back to 0
  only for an empty list. With only negative zIndex values, the next zIndex is
  therefore negative or 0, not 1.
- START_DRAG picks the FIRST note with the id (`find`). It then raises EVERY note with
  that id (`map`). DELETE_NOTE removes every note with the id, and UPDATE_CONTENT
  rewrites every note with the id. Ids are not assumed unique, because notes loaded from
  storage may repeat one.
- MOVE_DRAG in MOVE mode without a recorded offset leaves the state unchanged.
- The hover flag set during a pointer move is computed from the state BEFORE that move.
  The handler reads the state of the last render.
- A pointer-up with no gesture in progress returns at once and does NOT clear the hover
  flag. The hover flag is cleared only when a gesture was in progress.
- When the dragged note or either rectangle cannot be found, the hover handler leaves
  the flag as it was. In that case the pointer-up handler dispatches only END_DRAG.

## Model

| member | source | states |
|---|---|---|
| `Reducer.InitialBoardState` | src/state/boardReducer.ts:30-33 | The initial state has no notes and no gesture, so it satisfies the board invariant. |
| `Reducer.MaxReal` | src/state/boardReducer.ts:94-95 | `Math.max` of two numbers: at least each argument, and equal to one of them. |
| `Reducer.MaxZIndex` | src/state/boardReducer.ts:35-37 | Returns 0 for no notes. Otherwise it returns a zIndex that some note carries and that is at least every note's zIndex. |
| `Reducer.HighestZIndex` | src/state/boardReducer.ts:36 | `Math.max` over the zIndex values of a non-empty list returns a value that is attained and bounds every element. |
| `Reducer.IndexOfId` | src/state/boardReducer.ts:51 | Returns the position of the first note with the id: no earlier note has it, and the note at the position does. Returns the length when no note has the id. |
| `Reducer.UpdateWhere` | src/state/boardReducer.ts:97-99 | The id-conditional `map`: the list keeps its length; each note carrying the id becomes the updated note in place, and every other note stays as it was. |
| `Reducer.Find` | src/state/boardReducer.ts:51 | `find` returns nothing exactly when no note has the id. Otherwise it returns the note at the first position carrying that id. |
| `Reducer.WithoutId` | src/state/boardReducer.ts:111 | `filter` keeps exactly the notes whose id differs and never grows the list. With no match it returns the list itself. |
| `Reducer.BoardReducer` | src/state/boardReducer.ts:39-128 | Every action keeps "a gesture, when present, targets a note on the board". Only ADD_NOTE can lengthen the list. |
| `Reducer.DispatchAll` | src/components/Board.tsx:151-155 | Dispatching a list of non-add actions in order, each on the state the previous one left, keeps the invariant that a gesture targets a note on the board. |
| `Reducer.AddAll` | src/state/boardReducer.ts:41-48 | A run of ADD_NOTE actions adds one note per payload and never touches the gesture. |
| `ReducerProperties.AddNoteAppendsOnTop` | src/state/boardReducer.ts:41-48 | ADD_NOTE appends one note at the end. The note carries the payload and the fresh id, and its zIndex is `getMaxZIndex + 1`: strictly above every existing note, and 1 on an empty board. Earlier notes and the gesture are unchanged. |
| `ReducerProperties.AddNoteKeepsStackOrder` | src/state/boardReducer.ts:41-47 | One ADD_NOTE with a fresh id keeps zIndex strictly increasing along the list and keeps ids distinct. |
| `ReducerProperties.AddAllFromAnyBoard` | src/state/boardReducer.ts:41-47 | From any board, a run of ADD_NOTE actions keeps the earlier notes as an unchanged prefix and the gesture as it was. The k-th new note carries the k-th payload and fresh id. The new notes' zIndex strictly increases in creation order, and each new note is above every earlier note. |
| `ReducerProperties.AddAllStacksInCreationOrder` | src/state/boardReducer.ts:41-47 | Corollary for a board whose zIndex already increases along the list and whose ids are distinct: with fresh, pairwise distinct ids, the whole list keeps both properties and the earlier notes stay a prefix. |
| `ReducerProperties.StartDragOnMissingNoteIsNoOp` | src/state/boardReducer.ts:50-52 | START_DRAG on an id no note carries returns the state unchanged. |
| `ReducerProperties.StartDragBringsToFront` | src/state/boardReducer.ts:54-72 | The target's zIndex becomes `getMaxZIndex` of the old list plus one. It is strictly greater than every other note's and equals the new maximum. No other field of any note changes. The gesture records the id, the mode, the pointer start and the first matching note's geometry. The offset is present exactly in MOVE mode and equals pointer minus corner. |
| `ReducerProperties.MoveDragWithoutGestureIsNoOp` | src/state/boardReducer.ts:76-77 | MOVE_DRAG with no gesture is the identity. |
| `ReducerProperties.MoveDragFollowsPointer` | src/state/boardReducer.ts:79-87 | In MOVE mode the target's position becomes pointer minus offset. Its size, text and zIndex, the other notes and the gesture are unchanged. |
| `ReducerProperties.MoveDragResizesClamped` | src/state/boardReducer.ts:89-100 | In RESIZE mode width and height become `max(min, start size + total displacement)`, so they are at least 120×90. Position and everything else are unchanged. |
| `ReducerProperties.MoveDragLastPointerWins` | src/state/boardReducer.ts:75-104 | Two MOVE_DRAGs give the same state as the second alone, in either mode: no value accumulates across moves. |
| `ReducerProperties.GestureDependsOnlyOnLastPointer` | src/state/boardReducer.ts:75-104 | Any non-empty run of MOVE_DRAGs gives the same state as one MOVE_DRAG to the final pointer position (no drift). |
| `ReducerProperties.MoveGestureEndsAtLastPointer` | src/state/boardReducer.ts:54-87 | After START_DRAG in MOVE mode at p0 and any moves, the note is at `last - (p0 - start)`. Its size and text are unchanged, and it sits on top. |
| `ReducerProperties.ResizeGestureEndsAtLastPointer` | src/state/boardReducer.ts:54-100 | After START_DRAG in RESIZE mode at p0 and any moves, the size is `max(min, start + (last - p0))`, never below 120×90, and the position is unchanged. |
| `ReducerProperties.EndDragClearsGesture` | src/state/boardReducer.ts:106-108 | END_DRAG keeps the notes, clears the gesture, and a second END_DRAG changes nothing. |
| `ReducerProperties.WithoutIdKeepsOrder` | src/state/boardReducer.ts:111 | `filter` distributes over concatenation, so the kept notes stay in their original order. |
| `ReducerProperties.WithoutIdKeepsIdsDistinct` | src/state/boardReducer.ts:111 | Filtering a list with distinct ids leaves distinct ids. |
| `ReducerProperties.DeleteNoteRemovesExactlyThatNote` | src/state/boardReducer.ts:110-114 | DELETE_NOTE removes every note with the id and keeps every other note unchanged. It clears the gesture exactly when the gesture was on that id, and otherwise leaves the gesture as it was. |
| `ReducerProperties.DeleteMissingNoteIsNoOp` | src/state/boardReducer.ts:110-114 | On a board that keeps its invariant, deleting an id no note carries changes nothing. |
| `ReducerProperties.UpdateContentChangesOnlyText` | src/state/boardReducer.ts:116-121 | UPDATE_CONTENT replaces only `content`, and only of notes with the id. It is a no-op when none match. |
| `ReducerProperties.FreshIdOnlyMattersForAdd` | src/state/boardReducer.ts:44 | Only ADD_NOTE depends on the generated id. |
| `ReducerProperties.ReducerKeepsIdsDistinct` | src/state/boardReducer.ts:39-128 | Every action keeps ids distinct, provided ADD_NOTE draws an id not on the board. |
| `ReducerProperties.ReducerKeepsMinimumSize` | src/state/boardReducer.ts:89-100 | Every action keeps all notes at or above 120×90, provided added notes start at or above it. |
| `Board.RectContainsPoint` | src/components/Board.tsx:34-36 | True exactly when left ≤ x ≤ right and top ≤ y ≤ bottom, edges included. |
| `Board.RectEdgesAreInside` | src/components/Board.tsx:34-36 | `rectContainsPoint` includes the edges: all four corners of a non-empty rectangle are inside. |
| `Board.NoteCentre` | src/components/Board.tsx:110-111 | The centre is the midpoint of the note's box shifted into screen space by the container's left and top. |
| `Board.CentreOverTrash` | src/components/Board.tsx:100-113 | The test reaches a verdict exactly when a gesture is active, its note is on the board and both rectangles exist. The verdict is whether the first matching note's centre lies in the trash rectangle. |
| `Board.NewNotePayload` | src/components/Board.tsx:62-70 | A new note has the default size 200×160, which is at or above the resize minimum 120×90. Its content is empty, and it sits on the diagonal from the initial position. |
| `Board.NewNotesStackDiagonally` | src/components/Board.tsx:64-66 | The first new note is at (40, 40), and each later one is 20 further right and down than the one before. |
| `Board.AddNoteButtonStacksNewNote` | src/components/Board.tsx:62-72 | The button appends a note at (40 + 20n, 40 + 20n) for n notes, sized 200×160 with empty text and the drawn id, on top of every note. |
| `Board.PointerDownActions` | src/components/Board.tsx:82-98 | Pointer-down dispatches nothing when the target is inside a button. Otherwise it dispatches exactly one START_DRAG with the note id, the mode and the pointer. |
| `Board.PointerMoveActions` | src/components/Board.tsx:116-123 | Pointer-move dispatches nothing with no gesture. Otherwise it dispatches exactly one MOVE_DRAG with the pointer. |
| `Board.PointerUpActions` | src/components/Board.tsx:132-158 | Pointer-up dispatches nothing with no gesture. Otherwise it dispatches END_DRAG last, preceded by DELETE_NOTE of the dragged id exactly when the centre is over the trash. |
| `Board.PointerDownStartsGesture` | src/components/Board.tsx:82-95 | A pointer-down outside a button starts a gesture on that note in that mode and brings it to the front. Inside a button, the state is unchanged. |
| `Board.PointerUpEndsGesture` | src/components/Board.tsx:139-155 | After pointer-up during a gesture, no gesture remains. The notes are filtered by the dragged id exactly when its centre was over the trash, so the note is still present iff it was not dropped there. With both rectangles present, the test always decides. |
| `Board.DispatchKeepsMinimumSize` | src/state/boardReducer.ts:89-100 | Any sequence of dispatched non-add actions keeps every note at or above 120×90. |
| `Board.AddTwoNotesToEmptyBoard` | src/components/Board.tsx:62-71 | Two button clicks on an empty board give notes at (40, 40) and (60, 60) with zIndex 1 and 2. |
| `Board.GrabSecondNote` | src/components/Board.tsx:82-95 | Grabbing the second note at (100, 100) raises it to zIndex 3 and records the offset (40, 40). |
| `Board.MoveSecondNote` | src/components/Board.tsx:116-123 | Moving the pointer to (150, 120) puts the grabbed note at (110, 80), a shift of exactly (+50, +20). |
| `Board.DropSecondNoteOnTrash` | src/components/Board.tsx:132-155 | Releasing with the note's centre (210, 160) inside the trash deletes it and ends the gesture. The other note is kept. |
| `Board.BoardComponent.constructor` | src/components/Board.tsx:45-56 | Mounting gives the initial state with the loaded notes and the hover flag off. |
| `Board.BoardComponent.Dispatch` | src/components/Board.tsx:48-56 | `dispatch` replaces the state by the reducer's result and keeps the invariant. |
| `Board.BoardComponent.HandleAddNote` | src/components/Board.tsx:62-72 | The new state is the reducer's ADD_NOTE with the stacked payload for the current note count. |
| `Board.BoardComponent.HandleDeleteNote` | src/components/Board.tsx:74-76 | The new state is the reducer's DELETE_NOTE for that id. |
| `Board.BoardComponent.HandleContentChange` | src/components/Board.tsx:78-80 | The new state is the reducer's UPDATE_CONTENT for that id and text. |
| `Board.BoardComponent.HandlePointerDown` | src/components/Board.tsx:82-98 | The new state is the pre-event state with `PointerDownActions` applied in order. The hover flag is untouched. |
| `Board.BoardComponent.UpdateTrashHoverFromNoteCenter` | src/components/Board.tsx:100-114 | Sets the hover flag to the centre-over-trash verdict, and leaves it as it was when there is no verdict. |
| `Board.BoardComponent.HandlePointerMove` | src/components/Board.tsx:116-130 | The new state is the pre-event state with `PointerMoveActions` applied. The hover flag comes from the PRE-move state's centre test. |
| `Board.BoardComponent.HandlePointerUp` | src/components/Board.tsx:132-158 | The new state is the pre-event state with `PointerUpActions` applied in order. The hover flag is off after a gesture, and unchanged when there was none. |

## Left out

- Loading and saving notes in local storage (`src/components/Board.tsx:15-32`, `57-59`) is browser I/O with JSON parsing and swallowed exceptions. The loaded list is the constructor's `loaded` parameter, and saving has no effect on the state. The save/load round trip is therefore not modelled.
- Pointer capture (`setPointerCapture`, `releasePointerCapture`, `captureElRef`) and `preventDefault` are DOM side effects with no effect on the board state.
- `getBoundingClientRect` and the React hooks are not modelled. The container and trash rectangles are parameters, and a missing element is `None`.
- A handler is assumed to see the state of the last render, and the model takes that to be the current reducer state. Events that React delivers before re-rendering, where a handler would see an older state, are not modelled.
- `crypto.randomUUID()` is the caller-supplied `freshId`. Uniqueness of ids is proved only under the hypothesis that each drawn id is fresh.
- `src/components/Note.tsx` is rendering and event plumbing (`stopPropagation`). `targetInButton` of `HandlePointerDown` stands for the result of `closest('button')`.
- Rendering (styles, `userSelect`, the trash highlight colour) is not modelled.
- JavaScript floating-point rounding, NaN and infinities are not modelled: geometry is exact `real` and zIndex is `int`.
- The reducer's `default` branch (`src/state/boardReducer.ts:123-126`) is unreachable. Dafny's `match` on the six-constructor action type is exhaustive, so the branch has nothing to model.
