/**
 * The picker's event loop as a state machine on values: one event moves the
 * selection or ends the loop, and a run folds the loop over the terminal's
 * ticks. The class in module Tui is proved against these functions.
 */
module Picker {
  import opened Wrappers
  import opened Keys
  import opened Selection

  /** How the loop of `App::run` ends. `OpenUrl` and `CopyUrl` mean it returns
      what `select` or `copy` gives after running the opener or the clipboard
      helper on `url`; `DrawFailed` and `ReadFailed` are the errors that
      drawing the frame or reading the next event propagate. */
  datatype Exit =
    | UserQuit
    | OpenUrl(url: string)
    | CopyUrl(url: string)
    | Panicked(fault: Fault)
    | DrawFailed
    | ReadFailed

  /** The loop is still waiting for events, or it has returned. */
  datatype Outcome = Running | Ended(exit: Exit)

  /** The observable state of a session: the selection and the outcome. */
  datatype Session = Session(selected: Option<nat>, outcome: Outcome)

  /** What one pass through the loop meets: a failed draw, a failed event
      read, or an event read successfully. */
  datatype Tick = DrawError | ReadError | Received(ev: Event)

  predicate IsPanic(o: Outcome) {
    o.Ended? && o.exit.Panicked?
  }

  /** The item a commit acts on, wrapped as the exit it causes. */
  function Commit(items: seq<string>, sel: Option<nat>, open: bool): (e: Exit)
    ensures e.Panicked? <==> Cursor(sel) >= |items|
    ensures !e.Panicked? ==> e == (if open then OpenUrl(items[Cursor(sel)]) else CopyUrl(items[Cursor(sel)]))
    ensures e.Panicked? ==> e.fault == IndexOutOfBounds
  {
    match Target(items, sel)
    case Ok(url) => if open then OpenUrl(url) else CopyUrl(url)
    case Panic(f) => Panicked(f)
  }

  /** One event handled by the key match of `App::run`. */
  function Step(items: seq<string>, sel: Option<nat>, ev: Event): (r: Session)
    ensures r.outcome == Ended(UserQuit) <==> Dispatch(ev) == Quit
    ensures r.outcome.Running? <==> Dispatch(ev) in {MoveUp, NoOp} || (Dispatch(ev) == MoveDown && |items| > 0)
    ensures r.outcome.Ended? ==> r.selected == sel
    ensures InBounds(|items|, sel) ==> InBounds(|items|, r.selected)
    ensures InBounds(|items|, sel) ==>
      (IsPanic(r.outcome) <==> |items| == 0 && Dispatch(ev) in {MoveDown, OpenSelected, CopySelected})
    ensures Dispatch(ev) == NoOp ==> r == Session(sel, Running)
    ensures Dispatch(ev) == MoveUp ==> r == Session(PrevSel(sel), Running)
    ensures Dispatch(ev) == MoveDown && |items| > 0 ==> r == Session(NextSel(|items|, sel).value, Running)
    ensures Dispatch(ev) == OpenSelected ==> r == Session(sel, Ended(Commit(items, sel, true)))
    ensures Dispatch(ev) == CopySelected ==> r == Session(sel, Ended(Commit(items, sel, false)))
  {
    match Dispatch(ev)
    case Quit => Session(sel, Ended(UserQuit))
    case MoveDown =>
      (match NextSel(|items|, sel)
       case Ok(s) => Session(s, Running)
       case Panic(f) => Session(sel, Ended(Panicked(f))))
    case MoveUp => Session(PrevSel(sel), Running)
    case OpenSelected => Session(sel, Ended(Commit(items, sel, true)))
    case CopySelected => Session(sel, Ended(Commit(items, sel, false)))
    case NoOp => Session(sel, Running)
  }

  /** One pass through the loop: draw, read an event, handle it. */
  function Pass(items: seq<string>, sel: Option<nat>, t: Tick): (r: Session)
    ensures r.outcome.Ended? ==> r.selected == sel
    ensures t == DrawError ==> r == Session(sel, Ended(DrawFailed))
    ensures t == ReadError ==> r == Session(sel, Ended(ReadFailed))
    ensures t.Received? ==> r == Step(items, sel, t.ev)
  {
    match t
    case DrawError => Session(sel, Ended(DrawFailed))
    case ReadError => Session(sel, Ended(ReadFailed))
    case Received(ev) => Step(items, sel, ev)
  }

  /** The loop of `App::run` over a finite sequence of ticks: it stops at the
      first tick that ends it, and is still running when the ticks run out. */
  function Run(items: seq<string>, sel: Option<nat>, ticks: seq<Tick>): (r: Session)
    ensures ticks == [] ==> r == Session(sel, Running)
    ensures r.outcome == Ended(DrawFailed) ==> DrawError in ticks
    ensures r.outcome == Ended(ReadFailed) ==> ReadError in ticks
    ensures r.outcome == Ended(UserQuit) ==>
      Received(Key(Char('q'), Press)) in ticks || Received(Key(Esc, Press)) in ticks
    decreases |ticks|
  {
    if ticks == [] then Session(sel, Running)
    else
      var s := Pass(items, sel, ticks[0]);
      if s.outcome.Ended? then s else Run(items, s.selected, ticks[1..])
  }

  /** A loop still running has read only events that move the cursor or
      are ignored: every quit, commit, draw failure and read failure ends it. */
  lemma {:induction false} RunningReadOnlyMoves(items: seq<string>, sel: Option<nat>, ticks: seq<Tick>)
    requires Run(items, sel, ticks).outcome.Running?
    ensures forall k :: 0 <= k < |ticks| ==>
      ticks[k].Received? && Dispatch(ticks[k].ev) in {MoveUp, MoveDown, NoOp}
    decreases |ticks|
  {
    if ticks != [] {
      var s := Pass(items, sel, ticks[0]);
      RunningReadOnlyMoves(items, s.selected, ticks[1..]);
      forall k | 0 < k < |ticks|
        ensures ticks[k].Received? && Dispatch(ticks[k].ev) in {MoveUp, MoveDown, NoOp}
      {
        assert ticks[k] == ticks[1..][k - 1];
      }
    }
  }

  /** Once the loop has ended, no later tick is read. */
  lemma {:induction false} RunStopsAtEnd(items: seq<string>, sel: Option<nat>, ticks: seq<Tick>, more: seq<Tick>)
    requires Run(items, sel, ticks).outcome.Ended?
    ensures Run(items, sel, ticks + more) == Run(items, sel, ticks)
    decreases |ticks|
  {
    assert ticks != [];
    assert (ticks + more)[0] == ticks[0];
    assert (ticks + more)[1..] == ticks[1..] + more;
    var s := Pass(items, sel, ticks[0]);
    if s.outcome.Running? {
      RunStopsAtEnd(items, s.selected, ticks[1..], more);
    }
  }

  /** While the loop runs, one more tick is handled by one more pass from
      the selection reached so far. */
  lemma {:induction false} RunExtends(items: seq<string>, sel: Option<nat>, ticks: seq<Tick>, t: Tick)
    requires Run(items, sel, ticks).outcome.Running?
    ensures Run(items, sel, ticks + [t]) == Pass(items, Run(items, sel, ticks).selected, t)
    decreases |ticks|
  {
    if ticks == [] {
      assert ticks + [t] == [t];
    } else {
      assert (ticks + [t])[0] == ticks[0];
      assert (ticks + [t])[1..] == ticks[1..] + [t];
      var s := Pass(items, sel, ticks[0]);
      RunExtends(items, s.selected, ticks[1..], t);
    }
  }

  /** Whatever the terminal delivers, a selection that starts in bounds stays
      in bounds; for an empty list nothing is ever selected. */
  lemma {:induction false} RunKeepsInBounds(items: seq<string>, sel: Option<nat>, ticks: seq<Tick>)
    requires InBounds(|items|, sel)
    ensures InBounds(|items|, Run(items, sel, ticks).selected)
    decreases |ticks|
  {
    if ticks != [] {
      var s := Pass(items, sel, ticks[0]);
      if s.outcome.Running? {
        RunKeepsInBounds(items, s.selected, ticks[1..]);
      }
    }
  }

  /** A session over a non-empty list that starts in bounds never panics. */
  lemma {:induction false} NonEmptyRunNeverPanics(items: seq<string>, sel: Option<nat>, ticks: seq<Tick>)
    requires |items| > 0 && InBounds(|items|, sel)
    ensures !IsPanic(Run(items, sel, ticks).outcome)
    decreases |ticks|
  {
    if ticks != [] {
      var s := Pass(items, sel, ticks[0]);
      if s.outcome.Running? {
        NonEmptyRunNeverPanics(items, s.selected, ticks[1..]);
      }
    }
  }

  /** When a session ends by opening or copying, the url is the item at the
      selection it ended with (`items[selected.unwrap_or(0)]`). */
  lemma {:induction false} CommitReadsSelection(items: seq<string>, sel: Option<nat>, ticks: seq<Tick>)
    ensures var r := Run(items, sel, ticks);
      r.outcome.Ended? && (r.outcome.exit.OpenUrl? || r.outcome.exit.CopyUrl?) ==>
        Cursor(r.selected) < |items| && r.outcome.exit.url == items[Cursor(r.selected)]
    decreases |ticks|
  {
    if ticks != [] {
      var s := Pass(items, sel, ticks[0]);
      if s.outcome.Running? {
        CommitReadsSelection(items, s.selected, ticks[1..]);
      }
    }
  }

  /** A session started by `App::new` over a non-empty list that ends by
      opening or copying acts on one of the listed items, at the index that
      is selected. */
  lemma NewSessionCommitsListedItem(items: seq<string>, ticks: seq<Tick>)
    requires |items| > 0
    ensures var r := Run(items, Initial(|items|), ticks);
      r.selected.Some? && r.selected.value < |items| &&
      (r.outcome.Ended? && (r.outcome.exit.OpenUrl? || r.outcome.exit.CopyUrl?) ==>
        r.outcome.exit.url == items[r.selected.value])
  {
    RunKeepsInBounds(items, Initial(|items|), ticks);
    CommitReadsSelection(items, Initial(|items|), ticks);
  }

  /** The key presses that perform a sequence of moves: k for `prev`, j for
      `next`. */
  function MoveKeys(moves: seq<Move>): (ticks: seq<Tick>)
    ensures |ticks| == |moves|
    ensures forall i :: 0 <= i < |moves| ==>
      ticks[i] == Received(Key(Char(if moves[i] == Prev then 'k' else 'j'), Press))
    decreases |moves|
  {
    if moves == [] then []
    else [Received(Key(Char(if moves[0] == Prev then 'k' else 'j'), Press))] + MoveKeys(moves[1..])
  }

  /** The event loop fed only k and j presses, over a non-empty list with an
      in-bounds selection, keeps running and moves the cursor exactly as the
      clamped walk does. */
  lemma {:induction false} KeyMovesFollowClampedWalk(items: seq<string>, sel: Option<nat>, moves: seq<Move>)
    requires |items| > 0 && InBounds(|items|, sel)
    ensures Run(items, sel, MoveKeys(moves)) ==
      Session(Some(ClampedWalk(|items| - 1, sel.value, moves)), Running)
    decreases |moves|
  {
    if moves != [] {
      var ticks := MoveKeys(moves);
      var s := Pass(items, sel, ticks[0]);
      assert ticks[1..] == MoveKeys(moves[1..]);
      KeyMovesFollowClampedWalk(items, s.selected, moves[1..]);
    }
  }

  /** The hazard of the code as written: on an empty list, j/Down panics on
      `len - 1` and o/Enter and c panic on `items[0]`. */
  lemma EmptyListPanics()
    ensures Step([], None, Key(Char('j'), Press)) == Session(None, Ended(Panicked(LengthUnderflow)))
    ensures Step([], None, Key(Down, Press)) == Session(None, Ended(Panicked(LengthUnderflow)))
    ensures Step([], None, Key(Char('o'), Press)) == Session(None, Ended(Panicked(IndexOutOfBounds)))
    ensures Step([], None, Key(Enter, Press)) == Session(None, Ended(Panicked(IndexOutOfBounds)))
    ensures Step([], None, Key(Char('c'), Press)) == Session(None, Ended(Panicked(IndexOutOfBounds)))
  {
  }

  /** The loop with the empty-list cases guarded: `next` only moves when a
      next index exists, and a commit with no item under the cursor is
      ignored. */
  function GuardedStep(items: seq<string>, sel: Option<nat>, ev: Event): (r: Session)
    ensures !IsPanic(r.outcome)
    ensures |items| == 0 ==> (r.outcome.Ended? <==> Dispatch(ev) == Quit)
    ensures InBounds(|items|, sel) ==> InBounds(|items|, r.selected)
  {
    match Dispatch(ev)
    case MoveDown =>
      if |items| == 0 then Session(sel, Running) else Step(items, sel, ev)
    case OpenSelected | CopySelected =>
      if Cursor(sel) < |items| then Step(items, sel, ev) else Session(sel, Running)
    case _ => Step(items, sel, ev)
  }

  /** From an in-bounds selection the guard changes nothing except on the
      hazard itself: on a non-empty list it agrees with the code on every
      event, and on an empty list on every event but j/Down, o/Enter and c. */
  lemma GuardedStepAgrees(items: seq<string>, sel: Option<nat>, ev: Event)
    requires InBounds(|items|, sel)
    ensures |items| > 0 ==> GuardedStep(items, sel, ev) == Step(items, sel, ev)
    ensures Dispatch(ev) !in {MoveDown, OpenSelected, CopySelected} ==>
      GuardedStep(items, sel, ev) == Step(items, sel, ev)
  {
  }
}
