/**
 * The keyboard controls of the running program: `-` and `=` lower and raise
 * the ticks per second, Escape pauses and resumes, and Q quits while paused.
 */
module Keyboard {
  import opened Base

  /** The keys the handler tells apart; every other physical key is `OtherKey`. */
  datatype Key = Minus | Equal | Escape | KeyQ | OtherKey

  datatype ElementState = Pressed | Released

  datatype KeyEvent = KeyEvent(key: Key, state: ElementState, repeat: bool)

  /** The part of the application the handler reads and writes. */
  datatype Controls = Controls(tps: u16, isPaused: bool)

  /** `u16::saturating_add_signed`: the sum, clamped to the range of `u16`. */
  function SaturatingAddSigned(x: u16, offset: i16): (r: u16)
    ensures x + offset < 0 ==> r == 0
    ensures x + offset > U16_MAX ==> r == U16_MAX
    ensures 0 <= x + offset <= U16_MAX ==> r == x + offset
  {
    if x + offset < 0 then 0 else if x + offset > 0xFFFF then 0xFFFF else x + offset
  }

  /** The new controls after one event, and whether the event loop is told to exit. */
  function React(c: Controls, event: KeyEvent): (r: (Controls, bool))
    ensures r.1 ==> c.isPaused && event.key == KeyQ
    ensures r.0.isPaused != c.isPaused ==> event.key == Escape
    ensures r.0.tps == c.tps || (r.0.tps >= 1 && (event.key == Minus || event.key == Key.Equal))
  {
    if event.repeat || event.state == Released then (c, false)
    else
      match event.key
      case Minus => (c.(tps := Max1(SaturatingAddSigned(c.tps, -1))), false)
      case Equal => (c.(tps := Max1(SaturatingAddSigned(c.tps, 1))), false)
      case Escape => (c.(isPaused := !c.isPaused), false)
      case KeyQ => (c, c.isPaused)
      case OtherKey => (c, false)
  }

  /** `Ord::max` with 1. */
  function Max1(x: u16): (r: u16)
    ensures r >= 1 && (r == x || r == 1)
  {
    if x >= 1 then x else 1
  }

  /** The application's keyboard state. */
  class App {
    var tps: u16
    var isPaused: bool

    constructor(tps: u16, isPaused: bool)
      ensures this.tps == tps && this.isPaused == isPaused
    {
      this.tps := tps;
      this.isPaused := isPaused;
    }

    /**
     * `App::handle_keyboard`.  Asking the event loop to exit is the returned
     * flag; the log lines are left out.
     */
    method HandleKeyboard(event: KeyEvent) returns (exit: bool)
      modifies this
      ensures React(old(Controls(tps, isPaused)), event) == (Controls(tps, isPaused), exit)
    {
      exit := false;
      if event.repeat {
        return;
      }
      if event.state == Released {
        return;
      }
      if event.key == Minus || event.key == Key.Equal {
        var offset: i16 := if event.key == Minus then -0x1 else 0x1;
        var newTps := SaturatingAddSigned(tps, offset);
        if newTps < 0x1 {
          newTps := 0x1;
        }
        tps := newTps;
      } else if event.key == Escape {
        isPaused := !isPaused;
      } else if event.key == KeyQ && isPaused {
        exit := true;
      }
    }
  }

  /** Repeated presses and releases change nothing and never exit. */
  lemma IgnoredEvents(c: Controls, event: KeyEvent)
    requires event.repeat || event.state == Released
    ensures React(c, event) == (c, false)
  {
  }

  /** `-` and `=` move the rate by one, never below 1 and never above `u16::MAX`; nothing else changes. */
  lemma RateKeys(c: Controls, key: Key)
    requires key == Minus || key == Key.Equal
    ensures React(c, KeyEvent(key, Pressed, false)).0.tps >= 1
    ensures key == Minus ==> React(c, KeyEvent(key, Pressed, false)).0.tps == if c.tps >= 2 then c.tps - 1 else 1
    ensures key == Key.Equal ==> React(c, KeyEvent(key, Pressed, false)).0.tps == if c.tps < U16_MAX then c.tps + 1 else U16_MAX
    ensures React(c, KeyEvent(key, Pressed, false)).0.isPaused == c.isPaused
    ensures !React(c, KeyEvent(key, Pressed, false)).1
  {
  }

  /** Raising then lowering the rate restores it, as does lowering then raising from 2 or more. */
  lemma RateKeysUndo(c: Controls)
    ensures c.tps < U16_MAX ==> React(React(c, KeyEvent(Key.Equal, Pressed, false)).0, KeyEvent(Minus, Pressed, false)).0 == c.(tps := Max1(c.tps))
    ensures c.tps >= 2 ==> React(React(c, KeyEvent(Minus, Pressed, false)).0, KeyEvent(Key.Equal, Pressed, false)).0 == c
  {
  }

  /** Escape toggles the pause and nothing else; two presses restore the state. */
  lemma EscapeToggles(c: Controls)
    ensures React(c, KeyEvent(Escape, Pressed, false)) == (c.(isPaused := !c.isPaused), false)
    ensures React(React(c, KeyEvent(Escape, Pressed, false)).0, KeyEvent(Escape, Pressed, false)).0 == c
  {
  }

  /** The handler asks to exit exactly on a fresh Q press while paused, and then changes nothing. */
  lemma ExitOnlyOnPausedQ(c: Controls, event: KeyEvent)
    ensures React(c, event).1 <==> !event.repeat && event.state == Pressed && event.key == KeyQ && c.isPaused
    ensures event.key == KeyQ || event.key == OtherKey ==> React(c, event).0 == c
  {
  }
}
