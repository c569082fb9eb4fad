# crabmux core, modelled in Dafny

crabmux is a small terminal front end for tmux. It runs
`tmux list-sessions -F "#{session_name}:#{session_windows}:#{session_attached}:#{session_created}:#{session_activity}"`,
turns each output line into a session record and shows the records through
command-line subcommands (attach, new, kill, info, alias, kill-all) and a
keyboard-driven list view. This project models that core:

- `RustStr` (rust_str.dfy): the pieces of Rust's string library the parser and
  the commands rely on — `str::lines` (split at `'\n'`, drop a `'\r'` just
  before a `'\n'`, no final empty line), `split(':')` with its inverse `Join`,
  `usize::from_str` (optional `+`, digits only, 64-bit bound), `trim` over
  Unicode White_Space, substring `contains`, and ASCII `to_lowercase`.
- `Iter` (iter.dfy): Rust's `Iterator::filter_map` over a sequence, with
  where each of its results comes from, generic in the element types.
- `SessionParser` (session_parser.dfy): the `TmuxSession`, `ProcessInfo` and
  `ResourceInfo` records and `parse_tmux_sessions`: a line is kept exactly when
  it has at least five colon-separated fields, extra fields are ignored, a bad
  window count becomes 0 and only the flag `"1"` means attached. The partner of
  the parser is `FormatLine`, the line tmux prints for a session, and the
  listing round trip is proved for both `\n` and `\r\n` line ends.
- `SessionParserExamples` (session_parser_examples.dfy): the parser's
  documented cases (the repository's parsing tests), each proved for every
  input of the stated shape.
- `SessionListing` (session_listing.dfy): `get_tmux_sessions`: a spawn failure,
  the five "no server" phrases that mean an empty listing, any other failure
  with the trimmed standard error, and the enrichment loop that fills missing
  process and resource information with the fallbacks.
- `Cli` (cli.dfy): the subcommands attach, new, kill, info, alias and
  kill-all, over the session listing, an abstract command runner and, for
  kill-all, the confirmation answer read from the terminal.
- `AppModel` (app_model.dfy): the list view's state and `handle_input` as a
  pure step function over an `AppState`, with the wrap-around navigation,
  the help toggle, the new-session popup, refresh and kill.
- `Tui` (tui.dfy): the `App` object itself as a class whose methods update
  its fields in place, each proved to move `App.State()` exactly as the pure
  step function does.

The program's environment is passed in: the result of running tmux is an
`Option<CommandOutput>` (None when the process could not be spawned), other
tmux invocations are a function `run` from argument lists to a `Status`, the
per-session process scan is a function `probe` from the session's position to
a `Sample`, the `USER` variable is an `Option<string>`, the clock is a string,
and loading or saving the alias file is a `Result` / `Option` parameter.

Two hazards of the source are kept visible as preconditions rather than
repaired. Refresh replaces the session list without clamping the selection,
so a later Enter can index past the end (`AppModel.RefreshStrandsSelection`
exhibits it: `Step` is not safe there). After a kill, the selection is
clamped to `len - 1`, which underflows when the refreshed list is empty while
the selection is positive (`AppModel.KillClampUnderflows`).

## Model

| member | source | states |
|---|---|---|
| RustStr.Find | src/main.rs:374 | the first position of the separator, or the length when it does not occur; everything before it is separator-free |
| RustStr.Split | src/main.rs:374 | splitting yields at least one part and no part contains the separator |
| RustStr.JoinSplit | src/main.rs:374 | joining the parts of a split with the separator gives back the original string |
| RustStr.SplitJoin | src/main.rs:374 | splitting the join of separator-free parts gives back exactly those parts |
| RustStr.SplitCount | src/main.rs:374-375 | the number of parts is one more than the number of separators in the string |
| RustStr.StripCr | src/main.rs:372 | a line loses at most one trailing carriage return |
| RustStr.Lines | src/main.rs:372 | no line contains a newline |
| RustStr.LinesCons | src/main.rs:372 | a newline-free prefix followed by a newline becomes the first line, with one trailing carriage return removed |
| RustStr.LinesOfLfTerminated | src/main.rs:372 | lines each ended by `\n` are read back unchanged |
| RustStr.LinesOfCrlfTerminated | src/main.rs:372 | lines each ended by `\r\n` are read back unchanged |
| RustStr.LfAndCrlfAgree | src/main.rs:372 | the same lines ended by `\n` or by `\r\n` read the same |
| RustStr.FinalNewlineOptional | src/main.rs:372 | a final newline adds no empty last line |
| RustStr.LastLineKept | src/main.rs:372 | an unterminated last line is still a line |
| RustStr.LinesCount | src/main.rs:372 | there are at most one more lines than newlines |
| RustStr.TrimStart | src/main.rs:356 | removes exactly the leading whitespace: what remains is a suffix that does not start with whitespace |
| RustStr.TrimEnd | src/main.rs:356 | removes exactly the trailing whitespace: what remains is a prefix that does not end with whitespace |
| RustStr.TrimEmptyIffBlank | src/main.rs:1056 | trimming yields the empty string exactly when every character is whitespace |
| RustStr.TrimSlice | src/main.rs:356 | the trimmed string is a slice of the input with only whitespace cut off on either side |
| RustStr.Trim | src/main.rs:356 | the trimmed string is no longer than the input and, when non-empty, neither starts nor ends with whitespace |
| RustStr.Contains | src/main.rs:350-354 | the empty pattern is contained in every string, and a contained pattern is no longer than the string |
| RustStr.ContainsIffOccurs | src/main.rs:350-354 | `contains` holds exactly when the substring occurs at some position |
| RustStr.ContainsInfix | src/main.rs:350-354 | a string contains any substring placed inside it |
| RustStr.ContainsNeedsRoom | src/main.rs:350-354 | a string shorter than the substring cannot contain it |
| RustStr.ToLowerAscii | src/main.rs:763 | lowers each character independently and keeps the length |
| RustStr.ParseUsize | src/main.rs:378 | a successful parse is within the 64-bit bound and the text is an optional `+` followed by digits only |
| RustStr.ParseUsizeExact | src/main.rs:378 | a parse succeeds exactly when the text after an optional `+` is one or more digits whose value fits the 64-bit bound, and then yields that value |
| RustStr.LeadingZeroIgnored | src/main.rs:378 | a leading zero before digits does not change the parse result |
| RustStr.OverflowRejected | src/main.rs:378 | the decimal rendering of a value above the 64-bit bound does not parse |
| RustStr.DecimalString | src/main.rs:378 | the decimal rendering of a number is a non-empty string of digits with no sign |
| RustStr.DigitsValueOfDecimal | src/main.rs:378 | reading the decimal rendering of n gives n |
| RustStr.DecimalRoundTrip | src/main.rs:378 | parsing the decimal rendering of a value within bound, with or without `+`, gives the value |
| Iter.FilterMap | src/main.rs:371-389 | `filter_map` never yields more values than it has elements |
| Iter.FilterMapAppend | src/main.rs:371-389 | `filter_map` of a concatenation is the concatenation of the two parts' results |
| Iter.FilterMapOne | src/main.rs:373-389 | a single element yields its value when the closure returns one and nothing otherwise |
| Iter.FilterMapAll | src/main.rs:371-389 | when the closure returns a value for every element, the result is exactly those values in element order |
| Iter.Origin | src/main.rs:371-389 | the i-th value comes from an element at position i or later, and the elements before it yield exactly the first i values |
| Iter.OriginsIncrease | src/main.rs:371-389 | later values come from strictly later elements |
| SessionParser.WindowCount | src/main.rs:378 | the window field is its `usize` value when it parses and 0 otherwise, never above the bound |
| SessionParser.ParseLine | src/main.rs:373-386 | an accepted line gives a session without process or resource information |
| SessionParser.NameBeforeFirstColon | src/main.rs:374-377 | an accepted line's session name is the text before the line's first colon and holds no colon |
| SessionParser.ParseLines | src/main.rs:371-389 | the lines give at most one session each |
| SessionParser.ParseSessions | src/main.rs:370-390 | the output gives at most one more session than it has newlines |
| SessionParser.LineAcceptedIffFourColons | src/main.rs:374-377 | a line yields a session exactly when it holds at least four colons |
| SessionParser.ParseLineFields | src/main.rs:376-384 | for colon-free fields, the session takes name, created and activity from fields 0, 3, 4, the window count from field 1 and attached from field 2 being `"1"`, ignoring any further fields |
| SessionParser.FormatLineRoundTrip | src/main.rs:370-390 | the line tmux prints for a session parses back to that session, attached exactly when one client is attached |
| SessionParser.FormatLineShape | src/main.rs:345 | a printed line has no newline and does not end with a carriage return |
| SessionParser.ParseLinesAppend | src/main.rs:371-389 | parsing distributes over concatenation of line lists |
| SessionParser.ParseLinesAround | src/main.rs:371-389 | a rejected line contributes nothing and an accepted line contributes its session in place |
| SessionParser.ParseLinesLength | src/main.rs:371-389 | never more sessions than lines, and exactly as many when every line is accepted |
| SessionParser.Origin | src/main.rs:371-389 | the i-th session comes from an accepted line at position i or later, and the lines before that one give exactly the first i sessions |
| SessionParser.OriginsIncrease | src/main.rs:371-389 | sessions keep line order: a later session comes from a strictly later line |
| SessionParser.ParseSessionsOfLfLines | src/main.rs:370-390 | output of `\n`-terminated lines parses line by line |
| SessionParser.ParseSessionsOfCrlfLines | src/main.rs:370-390 | output of `\r\n`-terminated lines parses line by line |
| SessionParser.ListingRoundTrip | src/main.rs:370-390 | printing well-formed sessions one per line, with either line end, and parsing the result gives back the same sessions |
| SessionParser.Formatted | src/main.rs:345 | one printed line per session |
| SessionParser.FormattedLine | src/main.rs:370-390 | each printed line of a well-formed session is a single line that parses back to that session |
| SessionParser.ParsedFormatted | src/main.rs:371-389 | when every printed line parses back to its session, the whole list does |
| SessionParserExamples.ParsesEmptyOutput | src/main.rs:1429-1434 | empty output lists no sessions |
| SessionParserExamples.ParsesSingleSession | tests/parsing_tests.rs:40-50 | one complete line gives the session main, 3 windows, attached, with both time stamps |
| SessionParserExamples.WindowCountSmall | tests/parsing_tests.rs:40-50 | small window counts parse to their values |
| SessionParserExamples.WindowCountLarge | tests/parsing_tests.rs:157-163 | a six-digit window count parses to its value |
| SessionParserExamples.WindowCountRejects | tests/parsing_tests.rs:90-96 | words, negative and decimal window counts become 0 (also the cases at lines 166-173 and 196-203) |
| SessionParserExamples.AttachedOnlyForOne | tests/parsing_tests.rs:99-107 | attached flags 1, 0 and 2 give attached, detached, detached |
| SessionParserExamples.SkipsEmptyLines | tests/parsing_tests.rs:110-117 | an empty line between sessions and a final newline add no session |
| SessionParserExamples.DropsIncompleteLines | tests/parsing_tests.rs:120-128 | a two-field line is dropped while the lines around it are kept |
| SessionParserExamples.ColonInNameSplits | tests/parsing_tests.rs:131-140 | a name with colons is cut at the first colon and the rest shifts into the other fields |
| SessionParserExamples.IgnoresExtraFields | tests/parsing_tests.rs:143-154 | fields beyond the fifth are ignored |
| SessionParserExamples.KeepsWhitespace | tests/parsing_tests.rs:186-193 | leading and trailing blanks and tabs stay in the fields |
| SessionParserExamples.MixedLineEndings | tests/parsing_tests.rs:216-225 | lines ended by `\n` and by `\r\n` in one output all parse |
| SessionParserExamples.RecordLine | tests/parsing_tests.rs:19-37 | a line joined from five or more colon-free single-line fields is one line that parses to the session of its first five fields |
| SessionParserExamples.TwoGood | tests/parsing_tests.rs:52-67 | two good lines joined by a newline parse to their two sessions in order |
| SessionParserExamples.ThreeGood | tests/parsing_tests.rs:52-67 | three good lines joined by newlines parse to their three sessions in order |
| SessionListing.IsNoServerError | src/main.rs:350-354 | a message recognised as "no server" is at least as long as the shortest of the five phrases |
| SessionListing.NoServerIffPhraseOccurs | src/main.rs:350-354 | standard error is recognised as "no server" exactly when one of the five phrases occurs in it |
| SessionListing.PhraseAnywhereIsNoServer | src/main.rs:350-354 | any of the five phrases anywhere in standard error is recognised |
| SessionListing.ShortMessageIsFailure | src/main.rs:350-354 | a message shorter than the shortest phrase is never recognised |
| SessionListing.Listing | src/main.rs:341-360 | a spawn failure is an error with the executor's context, a recognised failure is an empty listing, any other failure is an error carrying the trimmed standard error, and success parses standard output |
| SessionListing.Enrich | src/main.rs:392-458 | the tmux fields are unchanged, both infos are present afterwards, an existing process info wins over the scan, a scanned resource wins over an existing one, and the fallbacks fill what is still missing |
| SessionListing.EnrichFillsGapsOnly | src/main.rs:442-457 | a session already carrying both infos is unchanged when the scan finds nothing |
| SessionListing.EnrichSettles | src/main.rs:442-457 | enriching again without new findings changes nothing |
| SessionListing.GetSessions | src/main.rs:341-368 | errors pass through and otherwise the result is each parsed session, in order, enriched with its own scan |
| SessionListing.ListedSessionsComplete | src/main.rs:360-367 | every listed session carries both infos, keeps its parsed name, and there are at most one more sessions than newlines in the output |
| SessionListing.NoServerListsNothing | src/main.rs:1475-1486 | a failed listing whose error mentions "no server running" is an empty listing |
| SessionListing.SilentFailureIsError | src/main.rs:347-357 | a failed listing with empty standard error is an error, not an empty listing |
| Cli.NewSessionArgs | src/main.rs:515-524 | `new-session` alone, or followed by `-s` and the name when one is given |
| Cli.NewSession | src/main.rs:515-534 | succeeds exactly when tmux exits successfully; a spawn failure and a failed exit give their errors |
| Cli.AttachTarget | src/main.rs:490-498 | the given name, else the first listed session, else "No tmux sessions found"; a listing error passes through |
| Cli.AttachSession | src/main.rs:487-513 | succeeds exactly when a target exists and attaching to it exits successfully; a lookup error passes through, a failed exit reports that the session may not exist and a spawn failure reports that tmux attach could not be executed |
| Cli.AttachDefaultsToFirst | src/main.rs:490-498 | without a name, attach goes to the first listed session |
| Cli.KillTarget | src/main.rs:539-547 | a kill needs an explicit name; without one it is refused and lists the sessions |
| Cli.KillSession | src/main.rs:536-564 | succeeds exactly when the listing works, a name is given and tmux kills it |
| Cli.KillWithoutNameRefuses | src/main.rs:539-547 | kill without a name never succeeds |
| Cli.FindByName | src/main.rs:696-699 | finds the first session with that name, or reports there is none |
| Cli.InfoTarget | src/main.rs:695-706 | with a name, the first listed session of that name, or "Session '…' not found" when none has it; without one, the first session, else "No tmux sessions found"; a listing error passes through |
| Cli.InfoHeader | src/main.rs:708-720 | six header lines describe the session |
| Cli.Indented | src/main.rs:736-738 | each window line is printed with two leading spaces |
| Cli.ShowSessionInfo | src/main.rs:692-742 | prints the header, and the indented window list only when listing windows succeeded; lookup errors print nothing |
| Cli.ManageAlias | src/main.rs:655-690 | name and session store the alias (overwriting) and save; name alone shows it or reports it missing; nothing lists all aliases; session alone is an invalid command; a load error passes through |
| Cli.AliasInsertOverwrites | src/main.rs:659-661 | storing an alias maps it to the new target and leaves every other alias alone |
| Cli.KillAllConfirmed | src/main.rs:763 | a confirming answer is a single character once trimmed |
| Cli.KillAllConfirmedIff | src/main.rs:763 | kill-all proceeds exactly when the trimmed answer is `y` or `Y` |
| Cli.FirstSpawnError | src/main.rs:768-773 | the first session whose kill could not be spawned; all earlier ones were spawned |
| Cli.FirstSpawnErrorAt | src/main.rs:768-773 | the first spawn failure is characterised uniquely by those two conditions |
| Cli.Names | src/main.rs:768 | the names of the listed sessions, in order |
| Cli.KillAllSessions | src/main.rs:744-777 | nothing to kill on an empty listing, cancelled without confirmation, otherwise kills every session in order and stops at the first spawn failure |
| AppModel.Initial | src/main.rs:166-181 | a new view shows the listed sessions with the first selected, no help and no popup |
| AppModel.NextIndex | src/main.rs:261-265 | moving down goes to the next session and wraps from the last to the first; a selection past the end goes to (selected + 1) mod length; an empty list keeps the selection |
| AppModel.PrevIndex | src/main.rs:267-275 | moving up goes to the previous session and wraps from the first to the last |
| AppModel.UpUndoesDown | src/main.rs:261-275 | up after down, and down after up, return to the same session |
| AppModel.DownKTimes | src/main.rs:261-265 | moving down k times selects position (selected + k) mod length |
| AppModel.DownAroundTheList | src/main.rs:1506-1580 | moving down once per session comes back to the start |
| AppModel.NewSessionName | src/main.rs:1056-1060 | a blank popup input creates `session-` plus the clock, any other input is used as typed |
| AppModel.GeneratedNameOnlyForBlank | src/main.rs:1056-1060 | the created name is the typed input unless that input is all whitespace |
| AppModel.Pop | src/main.rs:295-297 | backspace removes the last typed character, and does nothing on empty input |
| AppModel.ClampAfterKill | src/main.rs:1100-1102 | after a kill the selection stays where it was if still on the list, moves to the last session if past its end, and is 0 on an empty list |
| AppModel.StepSafe | src/main.rs:1085-1102 | a key is always safe with the first session selected, and safe whenever the selection is on the list and the refresh does not come back empty |
| AppModel.Step | src/main.rs:1046-1121 | Ctrl-C quits unchanged; an attach comes only from Enter outside the popup on the selected session; an error leaves list and selection alone; the popup input stays empty whenever the popup is hidden |
| AppModel.PopupStep | src/main.rs:1053-1077 | a popup key only continues, keeps the selection and help, changes the list only on Enter, and a successful Enter closes the popup with empty input |
| AppModel.NormalStep | src/main.rs:1080-1119 | q and Esc exactly quit, n exactly opens the popup, ? and h exactly toggle help, only K and r change the list, Enter attaches the selected session, and errors leave list and selection alone |
| AppModel.CtrlCQuitsFirst | src/main.rs:1048-1050 | Ctrl-C quits from any state without changing it |
| AppModel.PopupOnlyContinues | src/main.rs:1053-1077 | in the popup no key but Ctrl-C quits or attaches |
| AppModel.PopupEnterCreatesFirst | src/main.rs:1055-1064 | Enter in the popup creates the session, hides the popup and clears the input, or reports the creation error |
| AppModel.QuitKeys | src/main.rs:1081 | q and Esc quit the list view |
| AppModel.EnterAttachesSelected | src/main.rs:1085-1090 | Enter attaches to the selected session, and does nothing when the list is empty |
| AppModel.KillReclampsSelection | src/main.rs:1094-1104 | after a kill the list is the refreshed one and the selection is on it: unchanged if still inside, else the last session |
| AppModel.OnlyRefreshStrands | src/main.rs:1046-1121 | every key except refresh and popup Enter keeps the selection on the list |
| AppModel.HelpToggleTwice | src/main.rs:1583-1599 | ? or h toggles help, and pressing it twice restores the state |
| AppModel.BackspaceUndoesTyping | src/main.rs:1068-1073 | typing a character in the popup appends it and backspace removes it again |
| AppModel.BackspaceOnEmpty | src/main.rs:1068-1070 | backspace on an empty input changes nothing |
| AppModel.RefreshStrandsSelection | src/main.rs:1085-1108 | after moving down and refreshing to a shorter list, Enter would index past its end |
| AppModel.KillClampUnderflows | src/main.rs:1100-1102 | killing the last session from a non-zero selection when the list empties underflows the clamp |
| Tui.App.constructor | src/main.rs:166-181 | a new app is in the initial state for the listed sessions |
| Tui.App.Refresh | src/main.rs:256-259 | replaces the session list on success, leaving the selection alone, and changes nothing on error |
| Tui.App.Next | src/main.rs:261-265 | selects the next session with wrap-around |
| Tui.App.Previous | src/main.rs:267-275 | selects the previous session with wrap-around |
| Tui.App.ToggleHelp | src/main.rs:277-279 | flips the help panel |
| Tui.App.ShowNewSessionPopup | src/main.rs:281-284 | opens the popup with empty input |
| Tui.App.HideNewSessionPopup | src/main.rs:286-289 | closes the popup and clears the input |
| Tui.App.HandleNewSessionInput | src/main.rs:291-293 | appends the typed character |
| Tui.App.BackspaceNewSessionInput | src/main.rs:295-297 | removes the last typed character |
| Tui.App.HandleInput | src/main.rs:1046-1121 | handling a key moves the app exactly as the step function does and returns its result |
| Tui.App.HandlePopupKey | src/main.rs:1053-1077 | a popup key moves the app exactly as the popup step does |
| Tui.App.HandleListKey | src/main.rs:1080-1119 | a list-view key moves the app exactly as the list-view step does |

## Left out

- Terminal setup, raw mode, the event loop, all drawing with ratatui, colours and the top view (`run_tui`, `run_top_mode`, `ui`): these are screen I/O.
- `main` and the clap argument parsing: the subcommands are modelled from their parsed arguments.
- `list_sessions`, `rename_session`, `restore_sessions`, `save_snapshot` and the snapshot files: file and JSON I/O outside the parser and the session commands; the `s` key's snapshot result is an input of the step.
- Reading and writing the alias file as JSON: `ManageAlias` takes the loaded map (or its error) and the save error as parameters.
- The sysinfo process scan and its floating-point memory and CPU sums in `enrich_session_info`: the scan is the `probe` parameter, which gives the process and resource information found for each listed session by position.
- `String::from_utf8_lossy`: tmux output is given as already decoded text.
- The text of operating-system errors from spawning tmux: a spawn failure is `SpawnError` with its message as data.
- `chrono::Local::now()` for generated names: the clock is a string parameter.
- A failure to read the kill-all confirmation from standard input: the answer is given as a string.
- RustStr.ToLowerAscii: lowers ASCII letters only, while Rust's `to_lowercase` also lowers non-ASCII letters; no non-ASCII character lower-cases to `y`, so the kill-all confirmation is decided the same way.
- AppModel.NextIndex: does not model the overflow of `selected + 1` at `usize::MAX`, which no session list can reach.
- The `aliases` field of `App`, which is loaded but never read by the view.
- The error paths of `App::new` (the initial listing failing): the constructor takes the listed sessions.
