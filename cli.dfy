/** The decisions inside the command-line subcommands: which session a command targets,
    when it refuses, what `alias` does to the alias table, when `kill-all` goes ahead, and what
    `info` reports. Every `tmux` run is an effect: `run(args)` is the status of running
    `tmux` with those arguments. */
module Cli {
  import opened Wrappers
  import opened RustStr
  import opened SessionParser
  import opened SessionListing

  /** How a spawned command ended: it could not be started (with the system's message), or
      it exited, successfully or not. */
  datatype Status = SpawnError(err: string) | Exited(success: bool)

  const NoSessionsFound: string := "No tmux sessions found"

  function AttachArgs(target: string): seq<string> { ["attach-session", "-t", target] }
  function KillArgs(target: string): seq<string> { ["kill-session", "-t", target] }

  /** The arguments of `tmux new-session`, with `-s name` when a name is given. */
  function NewSessionArgs(name: Option<string>): (args: seq<string>)
    ensures |args| >= 1 && args[0] == "new-session"
    ensures name.None? ==> |args| == 1
    ensures name.Some? ==> args[1..] == ["-s", name.value]
  {
    match name
    case None => ["new-session"]
    case Some(n) => ["new-session", "-s", n]
  }

  // ---------------------------------------------------------------------------
  // new

  /** `new`: an error when tmux cannot be started or exits unsuccessfully. */
  function NewSession(name: Option<string>, run: seq<string> -> Status): (r: Result<Unit>)
    ensures r.Ok? <==> run(NewSessionArgs(name)) == Exited(true)
    ensures run(NewSessionArgs(name)).SpawnError? ==>
      r == Err("Failed to execute tmux new-session command")
    ensures run(NewSessionArgs(name)) == Exited(false) ==>
      r == Err("Failed to create new tmux session. Session name may already exist.")
  {
    match run(NewSessionArgs(name))
    case SpawnError(_) => Err("Failed to execute tmux new-session command")
    case Exited(ok) =>
      if ok then Ok(Unit)
      else Err("Failed to create new tmux session. Session name may already exist.")
  }

  // ---------------------------------------------------------------------------
  // attach

  /** The session `attach` targets: the given name, else the first listed session. The
      listing is fetched, and its failure returned, even when a name is given. */
  function AttachTarget(listing: Result<seq<Session>>, name: Option<string>): (r: Result<string>)
    ensures listing.Err? ==> r == Err(listing.msg)
    ensures listing.Ok? && name.Some? ==> r == Ok(name.value)
    ensures listing.Ok? && name.None? ==>
      (r.Ok? <==> listing.value != []) && (r.Ok? ==> r.value == listing.value[0].name)
    ensures listing.Ok? && name.None? && listing.value == [] ==> r == Err(NoSessionsFound)
  {
    match listing
    case Err(m) => Err(m)
    case Ok(sessions) =>
      match name
      case Some(n) => Ok(n)
      case None => if sessions == [] then Err(NoSessionsFound) else Ok(sessions[0].name)
  }

  /** `attach`: succeeds exactly when a target is found and `tmux attach-session` on it
      exits successfully. */
  function AttachSession(listing: Result<seq<Session>>, name: Option<string>,
                         run: seq<string> -> Status): (r: Result<Unit>)
    ensures r.Ok? <==>
      AttachTarget(listing, name).Ok? && run(AttachArgs(AttachTarget(listing, name).value)) == Exited(true)
    ensures AttachTarget(listing, name).Err? ==> r == Err(AttachTarget(listing, name).msg)
    ensures AttachTarget(listing, name).Ok? && run(AttachArgs(AttachTarget(listing, name).value)) == Exited(false) ==>
      r == Err("Failed to attach to session '" + AttachTarget(listing, name).value + "'. Session may not exist.")
    ensures AttachTarget(listing, name).Ok? && run(AttachArgs(AttachTarget(listing, name).value)).SpawnError? ==>
      r == Err("Failed to execute tmux attach command")
  {
    match AttachTarget(listing, name)
    case Err(m) => Err(m)
    case Ok(target) =>
      match run(AttachArgs(target))
      case SpawnError(_) => Err("Failed to execute tmux attach command")
      case Exited(ok) =>
        if ok then Ok(Unit)
        else Err("Failed to attach to session '" + target + "'. Session may not exist.")
  }

  /** With no name, `attach` goes to the first listed session whenever there is one. */
  lemma AttachDefaultsToFirst(sessions: seq<Session>, run: seq<string> -> Status)
    requires sessions != [] && run(AttachArgs(sessions[0].name)) == Exited(true)
    ensures AttachSession(Ok(sessions), None, run) == Ok(Unit)
  {
  }

  // ---------------------------------------------------------------------------
  // kill

  /** The session `kill` targets: only an explicitly named one. Without a name it refuses,
      and says why. */
  function KillTarget(listing: Result<seq<Session>>, name: Option<string>): (r: Result<string>)
    ensures listing.Err? ==> r == Err(listing.msg)
    ensures listing.Ok? ==> (r.Ok? <==> name.Some?)
    ensures r.Ok? ==> name == Some(r.value)
    ensures listing.Ok? && name.None? ==>
      r == Err(if listing.value == [] then NoSessionsFound else "Please specify a session name to kill")
  {
    match listing
    case Err(m) => Err(m)
    case Ok(sessions) =>
      match name
      case Some(n) => Ok(n)
      case None =>
        if sessions == [] then Err(NoSessionsFound)
        else Err("Please specify a session name to kill")
  }

  /** `kill`: succeeds exactly when the listing succeeds, a name is given and
      `tmux kill-session` on it exits successfully. */
  function KillSession(listing: Result<seq<Session>>, name: Option<string>,
                       run: seq<string> -> Status): (r: Result<Unit>)
    ensures r.Ok? <==> listing.Ok? && name.Some? && run(KillArgs(name.value)) == Exited(true)
    ensures KillTarget(listing, name).Err? ==> r == Err(KillTarget(listing, name).msg)
    ensures name.Some? && listing.Ok? && run(KillArgs(name.value)).SpawnError? ==>
      r == Err("Failed to execute tmux kill-session command")
    ensures name.Some? && listing.Ok? && run(KillArgs(name.value)) == Exited(false) ==>
      r == Err("Failed to kill session '" + name.value + "'. Session may not exist.")
  {
    match KillTarget(listing, name)
    case Err(m) => Err(m)
    case Ok(target) =>
      match run(KillArgs(target))
      case SpawnError(_) => Err("Failed to execute tmux kill-session command")
      case Exited(ok) =>
        if ok then Ok(Unit)
        else Err("Failed to kill session '" + target + "'. Session may not exist.")
  }

  /** Without a name `kill` never runs anything, whatever tmux would have done. */
  lemma KillWithoutNameRefuses(listing: Result<seq<Session>>, run: seq<string> -> Status)
    ensures KillSession(listing, None, run).Err?
  {
  }

  // ---------------------------------------------------------------------------
  // info

  /** The position of the first session called `name`, if any. */
  function FindByName(sessions: seq<Session>, name: string): (r: Option<nat>)
    ensures r.Some? ==> r.value < |sessions| && sessions[r.value].name == name
    ensures r.Some? ==> forall j :: 0 <= j < r.value ==> sessions[j].name != name
    ensures r.None? ==> forall j :: 0 <= j < |sessions| ==> sessions[j].name != name
  {
    if sessions == [] then None
    else if sessions[0].name == name then Some(0)
    else
      match FindByName(sessions[1..], name)
      case None => None
      case Some(i) => Some(i + 1)
  }

  /** The session `info` reports on: the first one with exactly the given name, else the
      first listed session. */
  function InfoTarget(listing: Result<seq<Session>>, name: Option<string>): (r: Result<Session>)
    ensures listing.Err? ==> r == Err(listing.msg)
    ensures listing.Ok? && name.Some? ==>
      (r.Ok? <==> exists j :: 0 <= j < |listing.value| && listing.value[j].name == name.value)
    ensures listing.Ok? && name.Some? && r.Ok? ==> r.value.name == name.value && r.value in listing.value
    ensures listing.Ok? && name.Some? && r.Ok? ==>
      exists j :: 0 <= j < |listing.value| && listing.value[j] == r.value &&
        forall i :: 0 <= i < j ==> listing.value[i].name != name.value
    ensures listing.Ok? && name.Some? && r.Err? ==> r.msg == "Session '" + name.value + "' not found"
    ensures listing.Ok? && name.None? ==>
      (r.Ok? <==> listing.value != []) && (r.Ok? ==> r.value == listing.value[0])
    ensures listing.Ok? && name.None? && r.Err? ==> r.msg == NoSessionsFound
  {
    match listing
    case Err(m) => Err(m)
    case Ok(sessions) =>
      match name
      case Some(n) =>
        (match FindByName(sessions, n)
         case Some(i) => Ok(sessions[i])
         case None => Err("Session '" + n + "' not found"))
      case None => if sessions == [] then Err(NoSessionsFound) else Ok(sessions[0])
  }

  function ListWindowsArgs(target: string): seq<string> {
    ["list-windows", "-t", target, "-F", "#{window_index}: #{window_name} (#{window_panes} panes)"]
  }

  /** The lines `info` prints about a session, before the window list. */
  function InfoHeader(s: Session): (lines: seq<string>)
    ensures |lines| == 6
  {
    ["Session Information:",
     "  Name: " + s.name,
     "  Windows: " + DecimalString(s.windows),
     "  Status: " + (if s.attached then "attached" else "detached"),
     "  Created: " + s.created,
     "  Last Activity: " + s.activity]
  }

  /** Each window line, indented by two spaces. */
  function Indented(lines: seq<string>): (r: seq<string>)
    ensures |r| == |lines|
    ensures forall k :: 0 <= k < |lines| ==> r[k] == "  " + lines[k]
  {
    if lines == [] then [] else ["  " + lines[0]] + Indented(lines[1..])
  }

  /** What `info` prints and returns. `windows` is the outcome of `tmux list-windows` on the
      target: `Err` when it could not be started, whose message is then returned after the
      header has been printed. An unsuccessful `list-windows` only omits the window list. */
  datatype Report = Report(printed: seq<string>, result: Result<Unit>)

  function ShowSessionInfo(listing: Result<seq<Session>>, name: Option<string>,
                           windows: Result<CommandOutput>): (r: Report)
    ensures InfoTarget(listing, name).Err? ==> r == Report([], Err(InfoTarget(listing, name).msg))
    ensures InfoTarget(listing, name).Ok? ==>
      |r.printed| >= 6 && r.printed[..6] == InfoHeader(InfoTarget(listing, name).value) && (r.result.Ok? <==> windows.Ok?)
    ensures InfoTarget(listing, name).Ok? && windows.Ok? && windows.value.success ==>
      var ws := Lines(windows.value.stdout);
      |r.printed| == 8 + |ws| && r.printed[6..8] == ["", "Windows:"] &&
      forall k :: 0 <= k < |ws| ==> r.printed[8 + k] == "  " + ws[k]
    ensures InfoTarget(listing, name).Ok? && !(windows.Ok? && windows.value.success) ==> |r.printed| == 6
  {
    match InfoTarget(listing, name)
    case Err(m) => Report([], Err(m))
    case Ok(s) =>
      match windows
      case Err(m) => Report(InfoHeader(s), Err(m))
      case Ok(out) =>
        if out.success then
          Report(InfoHeader(s) + ["", "Windows:"] + Indented(Lines(out.stdout)), Ok(Unit))
        else
          Report(InfoHeader(s), Ok(Unit))
  }

  // ---------------------------------------------------------------------------
  // alias

  /** What `alias` reports on success. */
  datatype AliasReply =
    | Created(alias: string, session: string)
    | Shown(alias: string, session: string)
    | NotFound(alias: string)
    | NoAliases
    | Listed(aliases: map<string, string>)

  /** `alias [name] [session]` over the stored table `loaded` (or the error of reading it).
      Returns the reply and the table written back, if any; `saveError` is the error of that
      write, if it fails. */
  method ManageAlias(name: Option<string>, session: Option<string>,
                     loaded: Result<map<string, string>>, saveError: Option<string>)
    returns (r: Result<AliasReply>, saved: Option<map<string, string>>)
    ensures loaded.Err? ==> r == Err(loaded.msg) && saved.None?
    ensures loaded.Ok? && name.Some? && session.Some? ==>
      saved == Some(loaded.value[name.value := session.value]) &&
      r == (if saveError.Some? then Err(saveError.value) else Ok(Created(name.value, session.value)))
    ensures name.None? || session.None? ==> saved.None?
    ensures loaded.Ok? && name.Some? && session.None? ==>
      r == Ok(if name.value in loaded.value then Shown(name.value, loaded.value[name.value])
              else NotFound(name.value))
    ensures loaded.Ok? && name.None? && session.None? ==>
      r == Ok(if loaded.value == map[] then NoAliases else Listed(loaded.value))
    ensures loaded.Ok? && name.None? && session.Some? ==> r == Err("Invalid alias command")
  {
    saved := None;
    if loaded.Err? {
      return Err(loaded.msg), None;
    }
    var aliases := loaded.value;
    match (name, session)
    case (Some(alias), Some(target)) =>
      aliases := aliases[alias := target];
      saved := Some(aliases);
      if saveError.Some? {
        return Err(saveError.value), saved;
      }
      r := Ok(Created(alias, target));
    case (Some(alias), None) =>
      if alias in aliases {
        r := Ok(Shown(alias, aliases[alias]));
      } else {
        r := Ok(NotFound(alias));
      }
    case (None, None) =>
      if aliases == map[] {
        r := Ok(NoAliases);
      } else {
        r := Ok(Listed(aliases));
      }
    case (None, Some(_)) =>
      r := Err("Invalid alias command");
  }

  /** Creating an alias maps it to the session, overwriting any earlier target, and leaves
      every other alias as it was. */
  lemma AliasInsertOverwrites(aliases: map<string, string>, alias: string, target: string)
    ensures var t := aliases[alias := target];
      alias in t && t[alias] == target &&
      (forall a :: a != alias ==> (a in t <==> a in aliases) && (a in aliases ==> t[a] == aliases[a])) &&
      |t.Keys| == |aliases.Keys| + (if alias in aliases then 0 else 1)
  {
    var t := aliases[alias := target];
    if alias in aliases {
      assert t.Keys == aliases.Keys;
    } else {
      assert t.Keys == aliases.Keys + {alias};
    }
  }

  // ---------------------------------------------------------------------------
  // kill-all

  /** `kill-all` goes ahead only when the answer, trimmed and lower-cased, is "y". */
  predicate KillAllConfirmed(answer: string)
    ensures KillAllConfirmed(answer) ==> |Trim(answer)| == 1
  {
    ToLowerAscii(Trim(answer)) == "y"
  }

  /** The only confirming answers are "y" and "Y", with any surrounding whitespace. */
  lemma KillAllConfirmedIff(answer: string)
    ensures KillAllConfirmed(answer) <==> Trim(answer) == "y" || Trim(answer) == "Y"
  {
    var t := Trim(answer);
    var l := ToLowerAscii(t);
    if KillAllConfirmed(answer) {
      assert |t| == 1 && LowerAscii(t[0]) == 'y';
      assert t == [t[0]];
    }
    assert t == "y" ==> l == [LowerAscii('y')];
    assert t == "Y" ==> l == [LowerAscii('Y')];
  }

  /** How `kill-all` ends when it does not fail. */
  datatype KillAllOutcome = NothingToKill | Cancelled | AllKilled

  /** The position of the first session whose kill command could not be started, or the
      number of sessions when every one could. */
  function FirstSpawnError(names: seq<string>, run: seq<string> -> Status): (k: nat)
    ensures k <= |names|
    ensures forall j :: 0 <= j < k ==> run(KillArgs(names[j])).Exited?
    ensures k < |names| ==> run(KillArgs(names[k])).SpawnError?
  {
    if names == [] then 0
    else if run(KillArgs(names[0])).SpawnError? then 0
    else 1 + FirstSpawnError(names[1..], run)
  }

  function Names(sessions: seq<Session>): (names: seq<string>)
    ensures |names| == |sessions|
    ensures forall k :: 0 <= k < |sessions| ==> names[k] == sessions[k].name
  {
    seq(|sessions|, k requires 0 <= k < |sessions| => sessions[k].name)
  }

  /** `kill-all`: with sessions listed and the answer confirming, runs `kill-session` on each in
      order, ignoring how each exits, and stops at the first that cannot be started.
      `attempted` lists the sessions a kill was run for. */
  method KillAllSessions(listing: Result<seq<Session>>, answer: string, run: seq<string> -> Status)
    returns (r: Result<KillAllOutcome>, attempted: seq<string>)
    ensures listing.Err? ==> r == Err(listing.msg) && attempted == []
    ensures listing.Ok? && listing.value == [] ==> r == Ok(NothingToKill) && attempted == []
    ensures listing.Ok? && listing.value != [] && !KillAllConfirmed(answer) ==>
      r == Ok(Cancelled) && attempted == []
    ensures listing.Ok? && listing.value != [] && KillAllConfirmed(answer) ==>
      var names, k := Names(listing.value), FirstSpawnError(Names(listing.value), run);
      (k == |names| ==> r == Ok(AllKilled) && attempted == names) &&
      (k < |names| ==> r == Err(run(KillArgs(names[k])).err) && attempted == names[..k + 1])
  {
    attempted := [];
    if listing.Err? {
      return Err(listing.msg), [];
    }
    var sessions := listing.value;
    if sessions == [] {
      return Ok(NothingToKill), [];
    }
    if !KillAllConfirmed(answer) {
      return Ok(Cancelled), [];
    }
    ghost var names := Names(sessions);
    var i := 0;
    while i < |sessions|
      invariant 0 <= i <= |sessions|
      invariant attempted == names[..i]
      invariant forall j :: 0 <= j < i ==> run(KillArgs(names[j])).Exited?
    {
      var name := sessions[i].name;
      assert names[..i + 1] == names[..i] + [name];
      attempted := attempted + [name];
      var status := run(KillArgs(name));
      if status.SpawnError? {
        FirstSpawnErrorAt(names, run, i);
        r := Err(status.err);
        return;
      }
      i := i + 1;
    }
    FirstSpawnErrorAt(names, run, |names|);
    assert attempted == names by {
      assert names[..i] == names;
    }
    r := Ok(AllKilled);
  }

  /** `FirstSpawnError` is the first position that fails: any position with every earlier
      one started, that either fails itself or is the end. */
  lemma {:induction false} FirstSpawnErrorAt(names: seq<string>, run: seq<string> -> Status, i: nat)
    requires i <= |names|
    requires forall j :: 0 <= j < i ==> run(KillArgs(names[j])).Exited?
    requires i < |names| ==> run(KillArgs(names[i])).SpawnError?
    ensures FirstSpawnError(names, run) == i
  {
    if i > 0 {
      FirstSpawnErrorAt(names[1..], run, i - 1);
    }
  }
}
