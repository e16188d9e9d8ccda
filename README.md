# urlx picker: a Dafny model of the selection state machine

urlx pulls urls out of text and lets the user pick one in a terminal list,
then open it with `open` or copy it with `pbcopy`. This project models the
picker's state machine in `src/tui.rs`:

- `App::new` builds an app over a fixed list of urls. It selects index 0
  when the list is non-empty and nothing otherwise.
- `prev` and `next` move the selected index by one and stop at the ends.
  There is no wrap-around.
- The key match in `App::run` turns each event into a command. `q`/Esc
  quits, `j`/Down is `next`, `k`/Up is `prev`, `o`/Enter opens, `c` copies.
  Everything else, including key releases, repeats and non-key events, is
  ignored.
- `select` and `copy` read `items[selected.unwrap_or(0)]`.

Files:

- `keys.dfy` (module `Keys`) holds the events and the key bindings.
- `selection.dfy` (module `Selection`) holds the cursor arithmetic as functions.
  The `usize` subtraction in `next` is written out with the panic a debug build
  raises. It also holds a clamped-walk reference against which sequences of
  moves are proved.
- `picker.dfy` (module `Picker`) holds one event (`Step`) and the whole loop
  (`Run`) as functions on values, with the lemmas about them.
- `tui.dfy` (module `Tui`) holds the class `App`. Its `items` are a constant
  fixed by the constructor; only `selected` is updated in place. `Prev` and
  `Next` are proved against `Selection.PrevSel` and `Selection.NextSel`,
  `Select` and `Copy` against `Picker.Commit`, and `HandleEvent` and `Run`
  against `Picker.Step` and `Picker.Run`.
- `wrappers.dfy` holds `Option`.

The loop reads its input as a sequence of ticks. Each tick is a failed draw,
a failed event read, or an event. Panics are explicit outcomes (`Checked`,
`Exit.Panicked`), so nothing excludes the empty list.

## Model

| member | source | states |
|---|---|---|
| Keys.Dispatch | src/tui.rs:46-56 | only key presses act; each command holds for exactly its keys (q/Esc, j/Down, k/Up, o/Enter, c), in both directions; everything else is a no-op |
| Selection.Cursor | src/tui.rs:30 | the starting index of prev, next, select and copy is the selected index, or 0 when nothing is selected (`unwrap_or(0)`, also on lines 37, 84 and 93) |
| Selection.UsizeSub | src/tui.rs:38 | `len - 1` on usize succeeds exactly when it does not go below zero, with the true difference; otherwise it panics |
| Selection.Initial | src/tui.rs:21-27 | the first selection is `Some(0)` exactly when the list is non-empty, `None` otherwise, and it is in bounds |
| Selection.PrevSel | src/tui.rs:29-34 | the selection stays put exactly when the cursor (None read as 0) is 0, otherwise it becomes cursor-1; it keeps the bounds invariant |
| Selection.NextSel | src/tui.rs:36-41 | panics exactly for an empty list; otherwise it stays put exactly when cursor+1 >= len, or else becomes cursor+1 < len; it keeps the bounds invariant |
| Selection.Target | src/tui.rs:84-85 | the looked-up url exists exactly when the cursor is below the length, and is `items[cursor]`; otherwise index out of bounds; for an in-bounds selection it exists exactly for a non-empty list |
| Selection.ApplyMoves | src/tui.rs:29-41 | a sequence of prev/next calls can only panic with the length underflow, and only on an empty list; when it completes, an in-bounds selection stays in bounds |
| Selection.MovesFollowClampedWalk | src/tui.rs:29-41 | on a non-empty list with an in-bounds selection, any sequence of prev/next equals a walk clamped at 0 and len-1: no panic, no wrap-around |
| Selection.NewSelectionStaysInBounds | src/tui.rs:21-41 | from the selection new gives a non-empty list, any sequence of prev/next leaves some index below len selected |
| Selection.EmptyListMoves | src/tui.rs:36-41 | on an empty list nothing is ever selected, and a sequence of moves panics exactly when it contains a next |
| Picker.Commit | src/tui.rs:53-54 | an open/copy exit carries `items[cursor]`; it panics with index out of bounds exactly when the cursor is past the end |
| Picker.Step | src/tui.rs:46-56 | quit exactly on a quit key; an ignored event changes nothing; k/Up gives `PrevSel`; j/Down gives `NextSel` on a non-empty list; o/Enter ends with the open commit and c with the copy commit of the current selection; the loop continues exactly on moves and no-ops, and on next only for a non-empty list; ending leaves the selection alone; the bounds invariant holds; from an in-bounds selection it panics exactly on j/Down, o/Enter or c over an empty list |
| Picker.Pass | src/tui.rs:44-46 | a failed draw ends the loop with `DrawFailed`, a failed event read with `ReadFailed`, both leaving the selection alone; an event read successfully is handled by `Step` |
| Picker.Run | src/tui.rs:43-60 | with no ticks the loop is still waiting with the selection unchanged; it ends with a draw or read error only if such a tick occurred, and by quitting only if a q or Esc press was received |
| Picker.RunningReadOnlyMoves | src/tui.rs:44-56 | a loop still running has read only key presses bound to j/Down, k/Up or ignored events: every quit, commit, draw failure and read failure ends it |
| Picker.RunStopsAtEnd | src/tui.rs:45-54 | once the loop has ended, appending any further ticks changes neither the outcome nor the selection: nothing after the end is read |
| Picker.RunExtends | src/tui.rs:44-59 | while the loop runs, one more tick is handled by exactly one more pass from the selection reached so far |
| Picker.RunKeepsInBounds | src/tui.rs:43-60 | over any ticks, an in-bounds selection stays in bounds; an empty list never gets a selection |
| Picker.NonEmptyRunNeverPanics | src/tui.rs:43-60 | a session over a non-empty list with an in-bounds selection never panics on the list's indices (the stdin-write panic inside `copy` is outside the model) |
| Picker.CommitReadsSelection | src/tui.rs:83-94 | whenever the loop ends by opening or copying, the url is the item at the final cursor |
| Picker.KeyMovesFollowClampedWalk | src/tui.rs:43-56 | the loop fed only k and j presses, over a non-empty list with an in-bounds selection, keeps running and ends at exactly the position of the clamped walk |
| Picker.NewSessionCommitsListedItem | src/tui.rs:21-60 | a session started by new over a non-empty list always has an index selected below len, and an open or copy acts on `items[selected]` |
| Picker.EmptyListPanics | src/tui.rs:38 | on an empty list, j and Down panic on `len - 1`, and o, Enter and c panic on `items[0]` (src/tui.rs:85 and 94) |
| Picker.GuardedStep | src/tui.rs:46-56 | corrected step: it never panics; on an empty list it ends exactly on a quit key; it keeps the bounds invariant |
| Picker.GuardedStepAgrees | src/tui.rs:46-56 | from an in-bounds selection the corrected step equals the step as written on every event of a non-empty list, and on every event other than j/Down, o/Enter and c of an empty list |
| Tui.App.constructor | src/tui.rs:21-27 | stores the urls unchanged and selects `Some(0)` exactly when there are any; the invariant holds |
| Tui.App.Prev | src/tui.rs:29-34 | only the selection changes, to `PrevSel` of the old one; the invariant is kept |
| Tui.App.Next | src/tui.rs:36-41 | only the selection changes, to `NextSel` of the old one, or it reports the underflow panic and leaves it alone; the invariant is kept |
| Tui.App.Select | src/tui.rs:83-85 | opens `items[cursor]` exactly when the cursor is below the length, else panics with index out of bounds; with the invariant and a non-empty list it opens the selected item; equals the open commit of `Picker.Commit` |
| Tui.App.Copy | src/tui.rs:92-94 | copies `items[cursor]` exactly when the cursor is below the length, else panics with index out of bounds; with the invariant and a non-empty list it copies the selected item; equals the copy commit of `Picker.Commit` |
| Tui.App.HandleEvent | src/tui.rs:46-56 | new selection and outcome equal `Picker.Step` of the old selection, so: q/Esc quits, j/Down moves by `NextSel`, k/Up by `PrevSel`, o/Enter opens and c copies the item under the cursor, anything else changes nothing |
| Tui.App.Run | src/tui.rs:43-60 | the final selection and outcome equal `Picker.Run` over the ticks; the invariant is kept |

## Findings

| source | as written | input that shows it | evidently intended | confidence | as-written member | corrected member |
|---|---|---|---|---|---|---|
| src/tui.rs:38 | `self.items.len() - 1` is computed on `usize` before the comparison | an empty url list (input with no urls), then `j` or Down | `next` does nothing when there is no next item | high, not executed | Picker.EmptyListPanics | Picker.GuardedStep |
| src/tui.rs:84-85 | `select` and `copy` index `items[selected.unwrap_or(0)]` with no emptiness check (likewise src/tui.rs:93-94) | an empty url list, then `o`, Enter or `c` | a commit with nothing selected does nothing and the loop continues | high, not executed | Picker.EmptyListPanics | Picker.GuardedStep |

`Picker.Step`, and through it the class `App`, keep the behaviour of the code
as written. `Picker.GuardedStep` is the corrected transition. It is proved never
to panic and to respond only to quit on an empty list. `Picker.GuardedStepAgrees`
proves that, from an in-bounds selection, it coincides with the code on every
non-empty list, and on an empty list on every event except the three hazardous
ones. The intent is read off the code itself: the `selected < len - 1` guard in
`next` and the `selected > 0` guard in `prev` keep the cursor inside the list,
and `unwrap_or(0)` in `select` and `copy` assumes index 0 exists. Nothing in
the code expects a move or a commit to reach past the list.

## Left out

- Integer width: the model follows a debug build, where `usize` underflow panics. A release build wraps `0 - 1` to `usize::MAX` and selects index 1 of an empty list instead. Indices are otherwise unbounded `nat`; `selected + 1` cannot overflow because it stays below the length.
- `find_urls` (src/urls.rs) is not part of this model. It is one call into the `regex` crate, and its matching semantics belong to that crate.
- src/main.rs is not part of this model. It is command-line parsing, stdin and file reading, and printing.
- `render_app` is not modelled. It is ratatui drawing. Only its failure is modelled, as a `DrawError` tick. Any adjustment ratatui makes to the list state while drawing (scroll offset, clamping an out-of-range selection) is not modelled. In the sessions the model reaches, the selection is always in range.
- Spawning `open` and `pbcopy` is not modelled: writing the url to the child's stdin and waiting for the child (src/tui.rs:87-88, 96-106). These are external processes. The model stops at the url each action receives (`OpenUrl(url)`, `CopyUrl(url)`), so the errors these processes return are not modelled. Nor is the panic of `copy` when writing the url to `pbcopy`'s stdin fails (`.expect` on src/tui.rs:99); a session over a non-empty list can still end that way, which `NonEmptyRunNeverPanics` does not cover.
- `choose`, `setup_terminal` and `restore_terminal` are not modelled (src/tui.rs:111-131). They are terminal I/O. Note that the `?` after the loop on src/tui.rs:114 skips the restore on src/tui.rs:115 whenever the loop returns an error.
- Blocking on `event::read` is not modelled: the loop runs over a finite sequence of ticks. When the ticks run out, the outcome is `Running`.
- Key modifiers (Ctrl, Alt, Shift) are not modelled, because the key match never looks at them.
