/**
 * The picker's cursor: the selected index that ratatui's `ListState` holds,
 * and how `App::new`, `App::prev` and `App::next` set it.
 */
module Selection {
  import opened Wrappers

  /** Why a debug build of the picker panics. */
  datatype Fault = LengthUnderflow | IndexOutOfBounds

  /** A value, or the panic that the Rust code raises instead of producing it. */
  datatype Checked<T> = Ok(value: T) | Panic(fault: Fault)

  /** `usize` subtraction as a debug build performs it: it panics instead of
      going below zero. */
  function UsizeSub(a: nat, b: nat): (r: Checked<nat>)
    ensures r.Ok? <==> b <= a
    ensures r.Ok? ==> r.value + b == a
    ensures r.Panic? ==> r.fault == LengthUnderflow
  {
    if b <= a then Ok(a - b) else Panic(LengthUnderflow)
  }

  /** The index every operation starts from: `selected().unwrap_or(0)`. */
  function Cursor(sel: Option<nat>): (i: nat)
    ensures sel == Some(i) || (sel == None && i == 0)
  {
    sel.GetOr(0)
  }

  /** The selection invariant: an index inside a non-empty list, and no
      index at all for an empty one. */
  predicate InBounds(len: nat, sel: Option<nat>) {
    if len == 0 then sel == None else sel.Some? && sel.value < len
  }

  /** The selection `App::new` starts with for a list of `len` items. */
  function Initial(len: nat): (r: Option<nat>)
    ensures r.Some? <==> len > 0
    ensures r.Some? ==> r.value == 0
    ensures InBounds(len, r)
  {
    if len > 0 then Some(0) else None
  }

  /** `App::prev`: one step towards the top, staying put at index 0. */
  function PrevSel(sel: Option<nat>): (r: Option<nat>)
    ensures r == sel <==> Cursor(sel) == 0
    ensures r != sel ==> r == Some(Cursor(sel) - 1)
    ensures forall len: nat :: InBounds(len, sel) ==> InBounds(len, r)
  {
    var i := Cursor(sel);
    if i > 0 then Some(i - 1) else sel
  }

  /** `App::next` on a list of `len` items: one step towards the bottom,
      staying put at the last index; the bound `len - 1` is `usize`
      arithmetic and panics for an empty list. */
  function NextSel(len: nat, sel: Option<nat>): (r: Checked<Option<nat>>)
    ensures r.Panic? <==> len == 0
    ensures r.Panic? ==> r.fault == LengthUnderflow
    ensures r.Ok? ==> (r.value == sel <==> Cursor(sel) + 1 >= len)
    ensures r.Ok? && r.value != sel ==> r.value == Some(Cursor(sel) + 1) && Cursor(sel) + 1 < len
    ensures r.Ok? && InBounds(len, sel) ==> InBounds(len, r.value)
  {
    var i := Cursor(sel);
    match UsizeSub(len, 1)
    case Panic(f) => Panic(f)
    case Ok(last) => if i < last then Ok(Some(i + 1)) else Ok(sel)
  }

  /** The item `select` and `copy` read: `items[selected.unwrap_or(0)]`,
      which panics when that index is past the end. */
  function Target(items: seq<string>, sel: Option<nat>): (r: Checked<string>)
    ensures r.Ok? <==> Cursor(sel) < |items|
    ensures r.Ok? ==> r.value == items[Cursor(sel)]
    ensures r.Panic? ==> r.fault == IndexOutOfBounds
    ensures InBounds(|items|, sel) ==> (r.Ok? <==> |items| > 0)
  {
    var i := Cursor(sel);
    if i < |items| then Ok(items[i]) else Panic(IndexOutOfBounds)
  }

  /** A cursor move: `prev` (k or Up) or `next` (j or Down). */
  datatype Move = Prev | Next

  /** The selection after a sequence of moves, or the first panic. */
  function ApplyMoves(len: nat, sel: Option<nat>, moves: seq<Move>): (r: Checked<Option<nat>>)
    ensures r.Panic? ==> r.fault == LengthUnderflow && len == 0
    ensures r.Ok? && InBounds(len, sel) ==> InBounds(len, r.value)
    decreases |moves|
  {
    if moves == [] then Ok(sel)
    else
      var step := if moves[0] == Prev then Ok(PrevSel(sel)) else NextSel(len, sel);
      match step
      case Panic(f) => Panic(f)
      case Ok(s) => ApplyMoves(len, s, moves[1..])
  }

  /** Reference behaviour of the cursor: a position confined to `0..hi` that
      each move shifts by one, clamped at both ends. */
  function ClampedWalk(hi: nat, i: nat, moves: seq<Move>): (r: nat)
    requires i <= hi
    ensures r <= hi
    decreases |moves|
  {
    if moves == [] then i
    else if moves[0] == Prev then ClampedWalk(hi, if i == 0 then 0 else i - 1, moves[1..])
    else ClampedWalk(hi, if i == hi then hi else i + 1, moves[1..])
  }

  /** On a non-empty list whose selection is in bounds, `prev` and `next`
      behave exactly as the clamped walk: no panic, no wrap-around. */
  lemma {:induction false} MovesFollowClampedWalk(len: nat, sel: Option<nat>, moves: seq<Move>)
    requires len > 0 && InBounds(len, sel)
    ensures ApplyMoves(len, sel, moves) == Ok(Some(ClampedWalk(len - 1, sel.value, moves)))
    decreases |moves|
  {
    if moves != [] {
      var s := if moves[0] == Prev then PrevSel(sel) else NextSel(len, sel).value;
      MovesFollowClampedWalk(len, s, moves[1..]);
    }
  }

  /** From the selection `App::new` gives a non-empty list, any sequence of
      moves leaves an index inside the list selected. */
  lemma NewSelectionStaysInBounds(len: nat, moves: seq<Move>)
    requires len > 0
    ensures var r := ApplyMoves(len, Initial(len), moves);
      r.Ok? && r.value.Some? && r.value.value < len
  {
    MovesFollowClampedWalk(len, Initial(len), moves);
  }

  /** On an empty list nothing is ever selected, and the moves panic exactly
      when one of them is `next`. */
  lemma {:induction false} EmptyListMoves(moves: seq<Move>)
    ensures ApplyMoves(0, None, moves) == if Next in moves then Panic(LengthUnderflow) else Ok(None)
    decreases |moves|
  {
    if moves != [] {
      assert Next in moves <==> moves[0] == Next || Next in moves[1..] by {
        assert moves == [moves[0]] + moves[1..];
      }
      if moves[0] == Prev {
        EmptyListMoves(moves[1..]);
      }
    }
  }
}
