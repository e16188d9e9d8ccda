/**
 * The picker's `App`: the list of urls and the selected index, changed in
 * place by `prev`, `next` and the event loop of `run`.
 */
module Tui {
  import opened Wrappers
  import opened Keys
  import opened Selection
  import opened Picker

  class App {
    /** The urls on offer; fixed once the app is built. */
    const items: seq<string>
    /** The selected index of the list state; `None` selects nothing. */
    var selected: Option<nat>

    /** The selection invariant that every method keeps. */
    ghost predicate Valid()
      reads this
    {
      InBounds(|items|, selected)
    }

    /** `App::new`: keeps the urls and selects the first one, if any. */
    constructor (urls: seq<string>)
      ensures items == urls
      ensures selected == Initial(|urls|)
      ensures Valid()
    {
      items := urls;
      selected := if |urls| > 0 then Some(0) else None;
    }

    /** `App::prev`: moves the selection one item up, not past the first. */
    method Prev()
      modifies this`selected
      ensures selected == PrevSel(old(selected))
      ensures old(Valid()) ==> Valid()
    {
      var i := Cursor(selected);
      if i > 0 {
        selected := Some(i - 1);
      }
    }

    /** `App::next`: moves the selection one item down, not past the last;
        computing the last index panics for an empty list. */
    method Next() returns (r: Checked<()>)
      modifies this`selected
      ensures NextSel(|items|, old(selected)).Ok? ==>
        r == Ok(()) && selected == NextSel(|items|, old(selected)).value
      ensures NextSel(|items|, old(selected)).Panic? ==>
        r == Panic(LengthUnderflow) && selected == old(selected)
      ensures old(Valid()) && r.Ok? ==> Valid()
    {
      var i := Cursor(selected);
      var last := UsizeSub(|items|, 1);
      if last.Panic? {
        return Panic(last.fault);
      }
      if i < last.value {
        selected := Some(i + 1);
      }
      return Ok(());
    }

    /** `App::select`: hands the selected url to the opener; indexing the
        list panics when nothing is under the cursor. */
    method Select() returns (e: Exit)
      ensures e.OpenUrl? <==> Cursor(selected) < |items|
      ensures e.OpenUrl? ==> e.url == items[Cursor(selected)]
      ensures !e.OpenUrl? ==> e == Panicked(IndexOutOfBounds)
      ensures Valid() && |items| > 0 ==> e == OpenUrl(items[selected.value])
      ensures e == Commit(items, selected, true)
    {
      var url := Target(items, selected);
      e := if url.Ok? then OpenUrl(url.value) else Panicked(url.fault);
    }

    /** `App::copy`: hands the selected url to the clipboard helper; indexing
        the list panics when nothing is under the cursor. */
    method Copy() returns (e: Exit)
      ensures e.CopyUrl? <==> Cursor(selected) < |items|
      ensures e.CopyUrl? ==> e.url == items[Cursor(selected)]
      ensures !e.CopyUrl? ==> e == Panicked(IndexOutOfBounds)
      ensures Valid() && |items| > 0 ==> e == CopyUrl(items[selected.value])
      ensures e == Commit(items, selected, false)
    {
      var url := Target(items, selected);
      e := if url.Ok? then CopyUrl(url.value) else Panicked(url.fault);
    }

    /** The key match of `App::run` applied to one event. */
    method HandleEvent(ev: Event) returns (o: Outcome)
      modifies this`selected
      ensures Session(selected, o) == Picker.Step(items, old(selected), ev)
    {
      match Dispatch(ev)
      case Quit =>
        o := Ended(UserQuit);
      case MoveDown =>
        var r := Next();
        o := if r.Panic? then Ended(Panicked(r.fault)) else Running;
      case MoveUp =>
        Prev();
        o := Running;
      case OpenSelected =>
        var e := Select();
        o := Ended(e);
      case CopySelected =>
        var e := Copy();
        o := Ended(e);
      case NoOp =>
        o := Running;
    }

    /** `App::run` over the ticks the terminal delivers: each pass draws,
        reads one event and handles it, until a pass ends the loop. When the
        ticks run out the loop is still waiting for input. */
    method Run(ticks: seq<Tick>) returns (o: Outcome)
      modifies this`selected
      ensures Session(selected, o) == Picker.Run(items, old(selected), ticks)
      ensures old(Valid()) ==> Valid()
    {
      ghost var start := selected;
      o := Running;
      var i := 0;
      while i < |ticks| && o.Running?
        invariant 0 <= i <= |ticks|
        invariant Picker.Run(items, start, ticks) ==
          if o.Running? then Picker.Run(items, selected, ticks[i..]) else Session(selected, o)
      {
        assert ticks[i..][1..] == ticks[i + 1..];
        match ticks[i] {
          case DrawError =>
            o := Ended(DrawFailed);
          case ReadError =>
            o := Ended(ReadFailed);
          case Received(ev) =>
            o := HandleEvent(ev);
        }
        i := i + 1;
      }
      if old(Valid()) {
        RunKeepsInBounds(items, start, ticks);
      }
    }
  }
}
