/** The interactive list's state and its response to one key press, as values: the selection,
    the help and new-session-popup flags and the popup's text buffer. The `tmux` calls made
    while handling a key (creating or killing a session, listing the sessions again, saving a
    snapshot) are effects whose outcomes are given. */
module AppModel {
  import opened Wrappers
  import opened RustStr
  import opened SessionParser
  import opened Cli

  datatype AppState = AppState(
    sessions: seq<Session>,
    selected: nat,
    showHelp: bool,
    showPopup: bool,
    input: string)

  /** The state right after start-up, over the listed sessions. */
  function Initial(sessions: seq<Session>): (s: AppState)
    ensures s.sessions == sessions && s.selected == 0
    ensures !s.showHelp && !s.showPopup && s.input == "" && Tidy(s)
  {
    AppState(sessions, 0, false, false, "")
  }

  /** The popup buffer holds text only while the popup is open. */
  predicate Tidy(s: AppState) {
    !s.showPopup ==> s.input == ""
  }

  // ---------------------------------------------------------------------------
  // Moving the selection

  /** Moving down: one row further, wrapping from the last row to the first; nothing moves
      on an empty list. A selection left past the end by a refresh moves to
      `(selected + 1) % len`. */
  function NextIndex(selected: nat, len: nat): (r: nat)
    ensures len == 0 ==> r == selected
    ensures len > 0 ==> r < len
    ensures len > 0 && selected + 1 < len ==> r == selected + 1
    ensures len > 0 && selected + 1 == len ==> r == 0
    ensures len > 0 && selected >= len ==> r == (selected + 1) % len
  {
    if len == 0 then selected else (selected + 1) % len
  }

  /** Moving up: one row back, wrapping from the first row to the last; nothing moves on an
      empty list. */
  function PrevIndex(selected: nat, len: nat): (r: nat)
    ensures len == 0 ==> r == selected
    ensures len > 0 && selected == 0 ==> r == len - 1
    ensures len > 0 && selected > 0 ==> r == selected - 1
    ensures selected < len ==> r < len
  {
    if len == 0 then selected
    else if selected == 0 then len - 1
    else selected - 1
  }

  /** Up undoes down and down undoes up, on any selection inside the list. */
  lemma UpUndoesDown(selected: nat, len: nat)
    requires selected < len
    ensures PrevIndex(NextIndex(selected, len), len) == selected
    ensures NextIndex(PrevIndex(selected, len), len) == selected
  {
  }

  /** The selection after pressing down `k` times. */
  function NextTimes(selected: nat, len: nat, k: nat): nat {
    if k == 0 then selected else NextIndex(NextTimes(selected, len, k - 1), len)
  }

  /** Pressing down `k` times moves the selection `k` rows, modulo the list's length. */
  lemma {:induction false} DownKTimes(selected: nat, len: nat, k: nat)
    requires selected < len
    ensures NextTimes(selected, len, k) == (selected + k) % len
  {
    if k == 0 {
      ModUnique(selected, len, 0, selected);
    } else {
      DownKTimes(selected, len, k - 1);
      ModNext(selected + k - 1, len);
    }
  }

  /** Pressing down once per row comes back to the starting row. */
  lemma DownAroundTheList(selected: nat, len: nat)
    requires selected < len
    ensures NextTimes(selected, len, len) == selected
  {
    DownKTimes(selected, len, len);
    ModUnique(selected + len, len, 1, selected);
  }

  lemma MulAtLeast(d: int, n: int)
    requires d >= 1 && n > 0
    ensures d * n >= n
  {
  }

  /** The remainder is the one `r` in `[0, n)` with `x == q * n + r`. */
  lemma ModUnique(x: int, n: int, q: int, r: int)
    requires n > 0 && 0 <= r < n && x == q * n + r
    ensures x % n == r
  {
    var d := q - x / n;
    assert d * n == x % n - r;
    if d >= 1 {
      MulAtLeast(d, n);
    } else if d <= -1 {
      MulAtLeast(-d, n);
    }
  }

  lemma ModNext(x: int, n: int)
    requires n > 0 && x >= 0
    ensures (x % n + 1) % n == (x + 1) % n
  {
    var q, m := x / n, x % n;
    if m + 1 < n {
      ModUnique(x + 1, n, q, m + 1);
      ModUnique(m + 1, n, 0, m + 1);
    } else {
      ModUnique(x + 1, n, q + 1, 0);
      ModUnique(m + 1, n, 1, 0);
    }
  }

  // ---------------------------------------------------------------------------
  // Keys

  datatype KeyCode = Char(c: char) | Enter | Esc | Backspace | Up | Down | Other

  /** A key press; `ctrl` is whether the Control modifier was held. */
  datatype KeyEvent = KeyEvent(code: KeyCode, ctrl: bool)

  /** What the event loop does after a key: carry on, leave, or attach to a session. */
  datatype InputResult = Continue | Quit | AttachSession(name: string)

  /** The outcomes of the effects a key press may cause.
      `clock` is the local time formatted as hours, minutes and seconds;
      `run` gives the status of each `tmux` command;
      `killListing` is the listing that `kill` fetches before killing;
      `refreshed` is the listing fetched to refresh the list;
      `snapshot` is the outcome of saving a snapshot (the file written, or the error). */
  datatype Effects = Effects(
    clock: string,
    run: seq<string> -> Status,
    killListing: Result<seq<Session>>,
    refreshed: Result<seq<Session>>,
    snapshot: Result<string>)

  function IsCtrlC(key: KeyEvent): bool {
    key.ctrl && key.code == Char('c')
  }

  /** The name used for a session created from the popup: the buffer as typed, or
      "session-" and the time when the buffer is blank. */
  function NewSessionName(input: string, clock: string): (name: string)
    ensures Trim(input) == [] ==> name == "session-" + clock
    ensures Trim(input) != [] ==> name == input
  {
    if Trim(input) == [] then "session-" + clock else input
  }

  /** A typed name is used verbatim (spaces included); the generated name is used only for a
      buffer of nothing but whitespace. */
  lemma GeneratedNameOnlyForBlank(input: string, clock: string)
    ensures NewSessionName(input, clock) == "session-" + clock || NewSessionName(input, clock) == input
    ensures NewSessionName(input, clock) != input ==> forall i :: 0 <= i < |input| ==> IsWhitespace(input[i])
  {
    TrimEmptyIffBlank(input);
  }

  /** `String::pop`: drops the last character, if any. */
  function Pop(s: string): (r: string)
    ensures s == [] ==> r == []
    ensures s != [] ==> r + [s[|s| - 1]] == s
  {
    if s == [] then [] else s[..|s| - 1]
  }

  /** The selection after a kill and a refresh to `len` sessions: moved to the last row when
      it fell off the end. */
  function ClampAfterKill(selected: nat, len: nat): (r: nat)
    requires len == 0 ==> selected == 0
    ensures len > 0 ==> r < len
    ensures selected < len ==> r == selected
    ensures 0 < len <= selected ==> r == len - 1
    ensures len == 0 ==> r == 0
  {
    if selected >= len && selected > 0 then len - 1 else selected
  }

  /** The conditions under which handling `key` does not fail: the row read on Enter or `K` lies
      inside the list (it may not, since a refresh never moves the selection), and the clamp
      after a kill does not compute `len - 1` on an empty list while the selection is above 0. */
  predicate StepSafe(s: AppState, key: KeyEvent, fx: Effects)
    ensures s.selected == 0 ==> StepSafe(s, key, fx)
    ensures SelectionOnList(s) && fx.refreshed != Ok([]) ==> StepSafe(s, key, fx)
  {
    !IsCtrlC(key) && !s.showPopup && s.sessions != [] ==>
      && ((key.code == Enter || key.code == Char('K')) ==> s.selected < |s.sessions|)
      && (key.code == Char('K') && fx.refreshed == Ok([])
          && KillSession(fx.killListing, Some(s.sessions[s.selected].name), fx.run).Ok?
          ==> s.selected == 0)
  }

  /** One key press: the new state and what the event loop should do, or the error that
      ends it. */
  function Step(s: AppState, key: KeyEvent, fx: Effects): (r: (AppState, Result<InputResult>))
    requires StepSafe(s, key, fx)
    ensures IsCtrlC(key) ==> r == (s, Ok(Quit))
    ensures r.1.Ok? && r.1.value.AttachSession? ==>
      !s.showPopup && key.code == Enter && s.selected < |s.sessions| &&
      r == (s, Ok(AttachSession(s.sessions[s.selected].name)))
    ensures r.1.Err? ==> r.0.sessions == s.sessions && r.0.selected == s.selected
    ensures Tidy(s) ==> Tidy(r.0)
  {
    if IsCtrlC(key) then (s, Ok(Quit))
    else if s.showPopup then PopupStep(s, key.code, fx)
    else NormalStep(s, key.code, fx)
  }

  /** A key while the new-session popup is open. */
  function PopupStep(s: AppState, code: KeyCode, fx: Effects): (r: (AppState, Result<InputResult>))
    ensures r.1.Ok? ==> r.1 == Ok(Continue)
    ensures r.0.selected == s.selected && r.0.showHelp == s.showHelp
    ensures code != Enter ==> r.0.sessions == s.sessions
    ensures code == Enter && r.1.Ok? ==> !r.0.showPopup && r.0.input == ""
    ensures r.1.Err? ==> r.0.sessions == s.sessions
    ensures s.showPopup ==> Tidy(r.0)
  {
    match code
    case Enter =>
      (match NewSession(Some(NewSessionName(s.input, fx.clock)), fx.run)
       case Err(m) => (s, Err(m))
       case Ok(_) =>
         var hidden := s.(showPopup := false, input := "");
         match fx.refreshed
         case Err(m) => (hidden, Err(m))
         case Ok(fetched) => (hidden.(sessions := fetched), Ok(Continue)))
    case Esc => (s.(showPopup := false, input := ""), Ok(Continue))
    case Backspace => (s.(input := Pop(s.input)), Ok(Continue))
    case Char(c) => (s.(input := s.input + [c]), Ok(Continue))
    case _ => (s, Ok(Continue))
  }

  /** A key in the session list. */
  function NormalStep(s: AppState, code: KeyCode, fx: Effects): (r: (AppState, Result<InputResult>))
    requires StepSafe(s, KeyEvent(code, false), fx) && !s.showPopup
    ensures r.1 == Ok(Quit) <==> code == Char('q') || code == Esc
    ensures r.0.showPopup <==> code == Char('n')
    ensures r.0.showHelp != s.showHelp <==> code == Char('?') || code == Char('h')
    ensures r.0.sessions != s.sessions ==> code == Char('K') || code == Char('r')
    ensures r.1.Ok? && r.1.value.AttachSession? ==>
      code == Enter && s.selected < |s.sessions| && r == (s, Ok(AttachSession(s.sessions[s.selected].name)))
    ensures r.1.Err? ==> r.0.sessions == s.sessions && r.0.selected == s.selected
    ensures Tidy(s) ==> Tidy(r.0)
  {
    if code == Char('q') || code == Esc then (s, Ok(Quit))
    else if code == Char('?') || code == Char('h') then (s.(showHelp := !s.showHelp), Ok(Continue))
    else if code == Down || code == Char('j') then
      (s.(selected := NextIndex(s.selected, |s.sessions|)), Ok(Continue))
    else if code == Up || code == Char('k') then
      (s.(selected := PrevIndex(s.selected, |s.sessions|)), Ok(Continue))
    else if code == Enter then
      if s.sessions != [] then (s, Ok(AttachSession(s.sessions[s.selected].name))) else (s, Ok(Continue))
    else if code == Char('n') then (s.(showPopup := true, input := ""), Ok(Continue))
    else if code == Char('K') then
      if s.sessions == [] then (s, Ok(Continue))
      else
        (match KillSession(fx.killListing, Some(s.sessions[s.selected].name), fx.run)
         case Err(m) => (s, Err(m))
         case Ok(_) =>
           match fx.refreshed
           case Err(m) => (s, Err(m))
           case Ok(fetched) =>
             (s.(sessions := fetched, selected := ClampAfterKill(s.selected, |fetched|)), Ok(Continue)))
    else if code == Char('r') then
      (match fx.refreshed
       case Err(m) => (s, Err(m))
       case Ok(fetched) => (s.(sessions := fetched), Ok(Continue)))
    else if code == Char('s') then
      (match fx.snapshot
       case Err(m) => (s, Err(m))
       case Ok(_) => (s, Ok(Continue)))
    else (s, Ok(Continue))
  }

  // ---------------------------------------------------------------------------
  // What a key press does

  /** Ctrl-C quits before anything else is looked at, popup open or not, and changes nothing. */
  lemma CtrlCQuitsFirst(s: AppState, fx: Effects)
    ensures Step(s, KeyEvent(Char('c'), true), fx) == (s, Ok(Quit))
  {
  }

  /** While the popup is open no key but Ctrl-C leaves the loop or attaches: every other key
      ends in `Continue` or an error. */
  lemma PopupOnlyContinues(s: AppState, key: KeyEvent, fx: Effects)
    requires s.showPopup && !IsCtrlC(key)
    ensures Step(s, key, fx).1.Ok? ==> Step(s, key, fx).1 == Ok(Continue)
  {
    assert Step(s, key, fx) == PopupStep(s, key.code, fx);
    if key.code == Enter {
      var created := NewSession(Some(NewSessionName(s.input, fx.clock)), fx.run);
      assert created.Ok? && fx.refreshed.Ok? ==> PopupStep(s, key.code, fx).1 == Ok(Continue);
    }
  }

  /** Enter in the popup creates the session first: when that fails the error is returned with
      the popup still open and nothing changed; otherwise the popup is closed and emptied and the
      list is refreshed, a failed refresh being returned as the error. */
  lemma PopupEnterCreatesFirst(s: AppState, fx: Effects)
    requires s.showPopup
    ensures var (t, r) := Step(s, KeyEvent(Enter, false), fx);
      var created := NewSession(Some(NewSessionName(s.input, fx.clock)), fx.run);
      && (created.Err? ==> t == s && r == Err(created.msg))
      && (created.Ok? ==> !t.showPopup && t.input == "" && (r.Ok? <==> fx.refreshed.Ok?))
      && (created.Ok? && fx.refreshed.Ok? ==> t.sessions == fx.refreshed.value && r == Ok(Continue))
  {
  }

  /** `q` and Esc quit from the list, with or without Control held, and change nothing. */
  lemma QuitKeys(s: AppState, ctrl: bool, fx: Effects)
    requires !s.showPopup
    ensures Step(s, KeyEvent(Char('q'), ctrl), fx) == (s, Ok(Quit))
    ensures Step(s, KeyEvent(Esc, ctrl), fx) == (s, Ok(Quit))
  {
  }

  /** Enter on a non-empty list attaches to the selected session; on an empty list it does
      nothing. */
  lemma EnterAttachesSelected(s: AppState, fx: Effects)
    requires !s.showPopup && (s.sessions != [] ==> s.selected < |s.sessions|)
    ensures s.sessions != [] ==>
      Step(s, KeyEvent(Enter, false), fx) == (s, Ok(AttachSession(s.sessions[s.selected].name)))
    ensures s.sessions == [] ==> Step(s, KeyEvent(Enter, false), fx) == (s, Ok(Continue))
  {
  }

  /** The selection lies on the list whenever the list has rows. */
  predicate SelectionOnList(s: AppState) {
    s.sessions != [] ==> s.selected < |s.sessions|
  }

  /** After a kill the selection is back on the list: it moves to the last row when the
      refreshed list became shorter than it, and stays put otherwise. */
  lemma KillReclampsSelection(s: AppState, fx: Effects)
    requires !s.showPopup && StepSafe(s, KeyEvent(Char('K'), false), fx)
    ensures var (t, r) := Step(s, KeyEvent(Char('K'), false), fx);
      && SelectionOnList(t)
      && (r.Ok? && s.sessions != [] ==> t.sessions == fx.refreshed.value)
      && (r.Ok? && s.selected < |t.sessions| ==> t.selected == s.selected)
      && (r.Ok? && s.sessions != [] && 0 < |t.sessions| <= s.selected ==> t.selected == |t.sessions| - 1)
  {
  }

  /** Only a refresh can move the selection off the list: every key other than `r`, and Enter
      in the popup, keeps it on the list. */
  lemma OnlyRefreshStrands(s: AppState, key: KeyEvent, fx: Effects)
    requires SelectionOnList(s) && StepSafe(s, key, fx)
    requires !(s.showPopup && key.code == Enter) && !(!s.showPopup && key.code == Char('r'))
    ensures SelectionOnList(Step(s, key, fx).0)
  {
    if !IsCtrlC(key) && !s.showPopup && key.code == Char('K') {
      KillReclampsSelection(s, fx);
    }
  }

  /** `?` (or `h`) twice restores the help flag. */
  lemma HelpToggleTwice(s: AppState, c: char, fx: Effects)
    requires !s.showPopup && (c == '?' || c == 'h')
    ensures Step(s, KeyEvent(Char(c), false), fx).0.showHelp == !s.showHelp
    ensures Step(Step(s, KeyEvent(Char(c), false), fx).0, KeyEvent(Char(c), false), fx).0 == s
  {
  }

  /** In the popup, typing a character appends exactly it, and Backspace then undoes it. */
  lemma BackspaceUndoesTyping(s: AppState, c: char, fx: Effects)
    requires s.showPopup
    ensures Step(s, KeyEvent(Char(c), false), fx).0 == s.(input := s.input + [c])
    ensures Step(Step(s, KeyEvent(Char(c), false), fx).0, KeyEvent(Backspace, false), fx).0 == s
  {
    assert (s.input + [c])[..|s.input|] == s.input;
  }

  /** Backspace on an empty buffer changes nothing. */
  lemma BackspaceOnEmpty(s: AppState, fx: Effects)
    requires s.showPopup && s.input == ""
    ensures Step(s, KeyEvent(Backspace, false), fx) == (s, Ok(Continue))
  {
  }

  // ---------------------------------------------------------------------------
  // The two ways a key press can fail

  /** Start on a list of two, press down, then refresh to a list of one: the selection now lies
      past the end, so the next Enter reads outside the list. */
  lemma RefreshStrandsSelection(a: Session, b: Session, fx: Effects)
    requires fx.refreshed == Ok([a])
    ensures var s1 := Step(Initial([a, b]), KeyEvent(Down, false), fx).0;
      var s2 := Step(s1, KeyEvent(Char('r'), false), fx).0;
      s1.selected == 1 && s2.sessions == [a] && s2.selected == 1 &&
      !StepSafe(s2, KeyEvent(Enter, false), fx)
  {
  }

  /** With the second of two rows selected, a kill that succeeds while every session vanishes
      leaves an empty list and a selection above 0, where the clamp would compute `0 - 1`. */
  lemma KillClampUnderflows(a: Session, b: Session, fx: Effects)
    requires fx.refreshed == Ok([]) && KillSession(fx.killListing, Some(b.name), fx.run).Ok?
    ensures !StepSafe(AppState([a, b], 1, false, false, ""), KeyEvent(Char('K'), false), fx)
  {
  }
}
