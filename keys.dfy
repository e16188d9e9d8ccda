/**
 * Terminal events as the picker's loop sees them, and the key bindings of
 * `App::run` that turn a key press into a command.
 */
module Keys {

  /** The key codes the picker binds; `Other` stands for every remaining
      crossterm key code (Backspace, Left, Right, Tab, F(n), ...). */
  datatype KeyCode = Char(c: char) | Esc | Enter | Up | Down | Other

  /** A key event is a press, a repeat or a release. */
  datatype KeyEventKind = Press | Repeat | Release

  /** A terminal event: a key event, or anything else the terminal reports
      (focus changes, mouse, paste, resize). Key modifiers are not part of the
      model because the bindings never look at them. */
  datatype Event = Key(code: KeyCode, kind: KeyEventKind) | NonKey

  /** What one event asks of the picker. */
  datatype Command = Quit | MoveDown | MoveUp | OpenSelected | CopySelected | NoOp

  /** The key match of `App::run`: only key presses are acted on, and each
      command is bound to exactly the keys listed below. */
  function Dispatch(ev: Event): (c: Command)
    ensures c != NoOp ==> ev.Key? && ev.kind == Press
    ensures c == Quit <==> ev == Key(Char('q'), Press) || ev == Key(Esc, Press)
    ensures c == MoveDown <==> ev == Key(Char('j'), Press) || ev == Key(Down, Press)
    ensures c == MoveUp <==> ev == Key(Char('k'), Press) || ev == Key(Up, Press)
    ensures c == OpenSelected <==> ev == Key(Char('o'), Press) || ev == Key(Enter, Press)
    ensures c == CopySelected <==> ev == Key(Char('c'), Press)
  {
    match ev
    case NonKey => NoOp
    case Key(code, kind) =>
      if kind != Press then NoOp
      else
        match code
        case Char('q') | Esc => Quit
        case Char('j') | Down => MoveDown
        case Char('k') | Up => MoveUp
        case Char('o') | Enter => OpenSelected
        case Char('c') => CopySelected
        case _ => NoOp
  }
}
