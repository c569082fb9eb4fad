/** The interactive list as the object the event loop mutates: its fields change in place
    through the navigation, help and popup methods, and `HandleInput` applies one key press
    step by step. Each method is proved to move the object's state as `AppModel` says. */
module Tui {
  import opened Wrappers
  import opened RustStr
  import opened SessionParser
  import opened Cli
  import opened AppModel

  class App {
    var sessions: seq<Session>
    var selected: nat
    var showHelp: bool
    var showNewSessionPopup: bool
    var newSessionInput: string

    /** The object's state as a value. */
    function State(): AppState
      reads this
    {
      AppState(sessions, selected, showHelp, showNewSessionPopup, newSessionInput)
    }

    /** `App::new` once the sessions have been listed. */
    constructor (listed: seq<Session>)
      ensures State() == Initial(listed)
    {
      sessions := listed;
      selected := 0;
      showHelp := false;
      showNewSessionPopup := false;
      newSessionInput := "";
    }

    /** Replaces the list with a fresh listing; on failure returns the error and keeps the
        old list. The selection is left where it was. */
    method Refresh(fetched: Result<seq<Session>>) returns (r: Result<Unit>)
      modifies this
      ensures fetched.Ok? ==> State() == old(State()).(sessions := fetched.value) && r == Ok(Unit)
      ensures fetched.Err? ==> State() == old(State()) && r == Err(fetched.msg)
    {
      if fetched.Err? {
        return Err(fetched.msg);
      }
      sessions := fetched.value;
      return Ok(Unit);
    }

    method Next()
      modifies this
      ensures State() == old(State()).(selected := NextIndex(old(selected), |old(sessions)|))
    {
      if sessions != [] {
        selected := (selected + 1) % |sessions|;
      }
    }

    method Previous()
      modifies this
      ensures State() == old(State()).(selected := PrevIndex(old(selected), |old(sessions)|))
    {
      if sessions != [] {
        if selected == 0 {
          selected := |sessions| - 1;
        } else {
          selected := selected - 1;
        }
      }
    }

    method ToggleHelp()
      modifies this
      ensures State() == old(State()).(showHelp := !old(showHelp))
    {
      showHelp := !showHelp;
    }

    method ShowNewSessionPopup()
      modifies this
      ensures State() == old(State()).(showPopup := true, input := "")
    {
      showNewSessionPopup := true;
      newSessionInput := "";
    }

    method HideNewSessionPopup()
      modifies this
      ensures State() == old(State()).(showPopup := false, input := "")
    {
      showNewSessionPopup := false;
      newSessionInput := "";
    }

    method HandleNewSessionInput(c: char)
      modifies this
      ensures State() == old(State()).(input := old(newSessionInput) + [c])
    {
      newSessionInput := newSessionInput + [c];
    }

    method BackspaceNewSessionInput()
      modifies this
      ensures State() == old(State()).(input := Pop(old(newSessionInput)))
    {
      if newSessionInput != [] {
        newSessionInput := newSessionInput[..|newSessionInput| - 1];
      }
    }

    /** `handle_input`: one key press, with the outcomes of its effects given by `fx`. */
    method HandleInput(key: KeyEvent, fx: Effects) returns (r: Result<InputResult>)
      requires StepSafe(State(), key, fx)
      modifies this
      ensures (State(), r) == Step(old(State()), key, fx)
    {
      if IsCtrlC(key) {
        return Ok(Quit);
      }
      if showNewSessionPopup {
        r := HandlePopupKey(key.code, fx);
        return;
      }
      r := HandleListKey(key.code, fx);
    }

    /** A key while the new-session popup is open. */
    method HandlePopupKey(code: KeyCode, fx: Effects) returns (r: Result<InputResult>)
      requires showNewSessionPopup
      modifies this
      ensures (State(), r) == PopupStep(old(State()), code, fx)
    {
      match code {
        case Enter =>
          var created := NewSession(Some(NewSessionName(newSessionInput, fx.clock)), fx.run);
          if created.Err? {
            return Err(created.msg);
          }
          HideNewSessionPopup();
          var refreshed := Refresh(fx.refreshed);
          if refreshed.Err? {
            return Err(refreshed.msg);
          }
        case Esc =>
          HideNewSessionPopup();
        case Backspace =>
          BackspaceNewSessionInput();
        case Char(c) =>
          HandleNewSessionInput(c);
        case _ =>
      }
      return Ok(Continue);
    }

    /** A key in the session list. */
    method HandleListKey(code: KeyCode, fx: Effects) returns (r: Result<InputResult>)
      requires !showNewSessionPopup && StepSafe(State(), KeyEvent(code, false), fx)
      modifies this
      ensures (State(), r) == NormalStep(old(State()), code, fx)
    {
      if code == Char('q') || code == Esc {
        return Ok(Quit);
      } else if code == Char('?') || code == Char('h') {
        ToggleHelp();
      } else if code == Down || code == Char('j') {
        Next();
      } else if code == Up || code == Char('k') {
        Previous();
      } else if code == Enter {
        if sessions != [] {
          return Ok(AttachSession(sessions[selected].name));
        }
      } else if code == Char('n') {
        ShowNewSessionPopup();
      } else if code == Char('K') {
        if sessions != [] {
          var killed := KillSession(fx.killListing, Some(sessions[selected].name), fx.run);
          if killed.Err? {
            return Err(killed.msg);
          }
          var refreshed := Refresh(fx.refreshed);
          if refreshed.Err? {
            return Err(refreshed.msg);
          }
          if selected >= |sessions| && selected > 0 {
            selected := |sessions| - 1;
          }
        }
      } else if code == Char('r') {
        var refreshed := Refresh(fx.refreshed);
        if refreshed.Err? {
          return Err(refreshed.msg);
        }
      } else if code == Char('s') {
        if fx.snapshot.Err? {
          return Err(fx.snapshot.msg);
        }
      }
      return Ok(Continue);
    }
  }
}
