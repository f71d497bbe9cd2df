# Cloudy Terminal, modelled in Dafny

Cloudy Terminal is a small interactive shell built around one Python class,
`CustomTerminal` (cloudy_terminal.py). This project models the part of that
class that is deterministic and proves what it promises:

- **The session state.** The object holds a command history that is appended
  in place, a `running` flag, and a fixed table of five built-ins: `exit`,
  `clear`, `history`, `help` and `nff`. In the model this is the class
  `Shell.Terminal`, with fields `history` and `running`. Its methods mirror
  `exit_terminal`, `show_history`, `execute_command` and the body of the
  `run` loop.
- **Dispatch.** `execute_command` ignores the empty string. Otherwise it
  records the line first, splits it on whitespace, lowercases the first word,
  and then either calls a built-in or passes the list of words to
  `subprocess.run` with `shell=True` (see "Left out" for what the shell
  then runs). The decision is the function `Commands.Dispatch`, and its
  properties are stated by `Commands.DispatchCases`.
- **Tab completion.** `predict_command` keeps the history entries and
  built-in names that start with the typed prefix, removes duplicates through
  a set and sorts by length (`Completion.Predict`). At command position,
  `complete` appends the glob's files and then its directories, each
  directory followed by the path separator (`Completion.CommandCandidates`).
  In argument position it lists the glob's paths, each followed by `/` or a
  space (`Completion.ArgumentCandidates`). It then answers readline's
  `state`-th request with `matches[state]`, or `None` past the end
  (`Completion.Index`, `Completion.Complete`).
- **The neofetch panel.** `show_neofetch` zips the 19-line logo with the nine
  information rows. The uptime is split into hours and minutes by integer
  division and remainder (`Neofetch.Layout`, `Neofetch.NeofetchRows`,
  `Neofetch.UptimeHours`, `Neofetch.UptimeMinutes`).

The Python string operations the code relies on are in module `Text`:
`str.isspace`, `strip()`, `split()` with no separator, `lower()`, and the
decimal rendering of integers in f-strings. `strip()` and `split()` use
Python's full whitespace set, not just the ASCII blanks.

Files:
- `wrappers.dfy`: `Option`.
- `text.dfy`: the Python string operations.
- `commands.dfy`: the built-in table and the dispatch decision.
- `completion.dfy`: prediction, candidate lists and the readline protocol.
- `neofetch.dfy`: the uptime arithmetic, the information rows and the panel layout.
- `terminal.dfy`: the `Terminal` class, the history display and the run loop.

Where the code and its documentation disagree, the model follows the code:

- **A blank line passed to `execute_command` is not ignored.** The function
  returns early only for the empty string. A line of whitespace is appended
  to the history, and then `parts[0]` raises IndexError. The `run` loop
  strips every line before passing it on, so through `run` such a line
  arrives empty and is ignored. `Shell.Terminal.ExecuteCommand` states the
  IndexError case, and `Shell.Terminal.Step` proves that it cannot happen
  from the loop.
- **The command-position list is not sorted or deduplicated as a whole.**
  Only the predictions are. The file and directory names are appended after
  them unchanged (`Completion.CommandCandidatesMayRepeat`,
  `Completion.CommandCandidatesNotSortedByLength`).
- **Predictions of equal length have no fixed order.** They pass through a
  Python `set`, so the code leaves their order unspecified. The model fixes
  one order: the first occurrence in `history + built-ins`, then a stable
  sort by length. The contracts of `Completion.Predict` promise only what the
  code guarantees: the right members, no duplicates, and lengths that never
  decrease. `Completion.PredictDeterminedUpToOrder` shows that this
  determines the list up to the order of equal-length entries.

## Model

| member | source | states |
|---|---|---|
| Text.Strip | cloudy_terminal.py:225 | `strip()`: drops one whitespace character at a time from the front, then from the back (a definition; its properties are the `Strip…` lemmas below) |
| Text.StripTrims | cloudy_terminal.py:225 | `strip()` gives the empty string exactly when the line is all whitespace; otherwise the result starts and ends with a non-whitespace character |
| Text.StripInfix | cloudy_terminal.py:225 | the stripped line is the part of the line that lies between a whitespace-only head and a whitespace-only tail |
| Text.StripBlankHead | cloudy_terminal.py:225 | leading whitespace does not change the result of `strip()` |
| Text.StripBlankTail | cloudy_terminal.py:225 | `strip()` removes exactly the trailing whitespace after a core that has no whitespace at either end |
| Text.StripPadded | cloudy_terminal.py:225 | a core with no whitespace at either end, padded with whitespace on both sides, strips back to itself |
| Text.Split | cloudy_terminal.py:203 | `split()` yields non-empty words without whitespace, whose concatenation is the line's non-whitespace characters; the list is empty exactly for an all-whitespace line |
| Text.SplitAppend | cloudy_terminal.py:64 | when the first part is empty or ends in whitespace, the words of the joined string are the words of the first part followed by those of the second |
| Text.SplitHead | cloudy_terminal.py:203-204 | the first word of `lead + word + rest`, where `lead` is whitespace and `rest` is empty or starts with whitespace, is `word`, and the remaining words are those of `rest` |
| Text.Lower | cloudy_terminal.py:204 | `lower()` keeps the length, leaves no upper-case letter, and changes a character exactly when it is an upper-case letter |
| Text.NatToString | cloudy_terminal.py:102 | the decimal rendering of a number is a non-empty string of digits with no leading zero |
| Text.ParseNatToString | cloudy_terminal.py:102 | reading the decimal rendering back gives the number |
| Text.IntToString | cloudy_terminal.py:163 | the rendering of an integer starts with `-` exactly when it is negative, followed by the decimal rendering of its magnitude; a non-negative integer renders as its digits alone |
| Commands.Name | cloudy_terminal.py:23-29 | every built-in's key is in the table, and looking that key up finds the same built-in |
| Commands.Lookup | cloudy_terminal.py:206 | a word is found in the table exactly when it is one of the five keys |
| Commands.LookupName | cloudy_terminal.py:23-29 | each table key finds a built-in whose key is that word |
| Commands.BuiltinNamesAreLower | cloudy_terminal.py:23-29 | every key is already in lower case, so a lowered word can match it |
| Commands.CommandWord | cloudy_terminal.py:203-204 | a line has no command word exactly when it is all whitespace; otherwise the command word is its first word, lowered and non-empty |
| Commands.Dispatch | cloudy_terminal.py:199-210 | the decision of `execute_command` (a definition: ignore the empty string, no command word for a blank line, else a table lookup of the lowered first word or a spawn of all words); `Commands.DispatchCases` states its cases |
| Commands.DispatchCases | cloudy_terminal.py:199-210 | only the empty string is ignored; a non-empty blank line has no command word; a built-in runs exactly when the lowered first word is a table key, and it is the built-in under that key; every other line is spawned with all of its words |
| Commands.DispatchByCommandWord | cloudy_terminal.py:203-207 | two lines with the same lowered first word get the same built-in, or are both spawned |
| Commands.ArgumentsIgnored | cloudy_terminal.py:203-207 | a built-in name in any ASCII case, with any leading whitespace and any arguments after it, runs that built-in |
| Commands.UpperCaseExit | cloudy_terminal.py:204-207 | `EXIT` runs the `exit` built-in |
| Commands.HistoryWithArgument | cloudy_terminal.py:203-207 | `History 5` runs the `history` built-in |
| Commands.HistoryIsBuiltin | cloudy_terminal.py:206-207 | `history` runs the `history` built-in |
| Completion.WithPrefix | cloudy_terminal.py:41-46 | the filtered list holds exactly the entries that start with the prefix |
| Completion.Distinct | cloudy_terminal.py:49 | `set(...)`: the same members as the input, each once |
| Completion.InsertByLength | cloudy_terminal.py:50 | inserting into a length-sorted list keeps it sorted and adds exactly the one element |
| Completion.SortByLength | cloudy_terminal.py:50 | `sorted(key=len)`: a permutation of the input whose lengths never decrease |
| Completion.Predict | cloudy_terminal.py:36-50 | an empty prefix predicts nothing; otherwise the result holds exactly the history entries and built-in names that start with the prefix, with no duplicates and non-decreasing lengths |
| Completion.PredictDeterminedUpToOrder | cloudy_terminal.py:49-50 | two duplicate-free lists with the same members have the same length, so the prediction is fixed up to the order of its members |
| Completion.DistinctSize | cloudy_terminal.py:49 | a duplicate-free list is as long as the set of its members |
| Completion.PredictSingleMatch | cloudy_terminal.py:36-50 | a prefix that only one candidate extends predicts exactly that candidate |
| Completion.PredictExit | cloudy_terminal.py:36-50 | with an empty history, `ex` predicts `["exit"]` |
| Completion.Files | cloudy_terminal.py:59 | the file list holds exactly the paths the glob reports as files |
| Completion.FilesAppend | cloudy_terminal.py:59 | the list comprehension keeps the glob's order: the files of two listings joined are the files of the first followed by those of the second |
| Completion.FilesOfOne | cloudy_terminal.py:59 | a one-entry listing gives its path if it is a file and nothing otherwise |
| Completion.Directories | cloudy_terminal.py:60 | the directory list holds exactly the paths the glob reports as directories, each followed by the separator |
| Completion.DirectoriesAppend | cloudy_terminal.py:60 | the list comprehension keeps the glob's order: the directories of two listings joined are those of the first followed by those of the second |
| Completion.DirectoriesOfOne | cloudy_terminal.py:60 | a one-entry listing gives its path followed by the separator if it is a directory and nothing otherwise |
| Completion.CommandCandidates | cloudy_terminal.py:57-60 | the command-position list is the prediction list, then the files, then the directories with the separator appended, in that order |
| Completion.CommandCandidatesShape | cloudy_terminal.py:57-60 | the command-position list begins with the prediction list; what follows holds exactly the globbed files and the globbed directories followed by the separator |
| Completion.CommandCandidatesMayRepeat | cloudy_terminal.py:58-60 | a predicted history entry that is also a file name appears twice in the list |
| Completion.CommandCandidatesNotSortedByLength | cloudy_terminal.py:58-60 | a file name shorter than a predicted built-in name comes after it, so the list is not sorted by length |
| Completion.ArgumentCandidates | cloudy_terminal.py:76-80 | with no base directory the list is empty; otherwise there is one entry per globbed path, the path followed by `/` exactly when it is a directory and by a space otherwise |
| Completion.LastWord | cloudy_terminal.py:64 | the last word is missing (IndexError) exactly when the token is non-empty and all whitespace; it is `''` for an empty token and otherwise the last element of `split()`, a non-empty word without whitespace |
| Completion.LastWordOf | cloudy_terminal.py:64 | a word without whitespace, after anything that is empty or ends in whitespace and before trailing whitespace, is the last word |
| Completion.Index | cloudy_terminal.py:85-88 | `matches[state]` exists exactly for `-len <= state < len`; from 0 it counts from the front, below 0 from the back |
| Completion.IndexEnumerates | cloudy_terminal.py:85-88 | asking for states 0, 1, 2, … yields the candidates in order, and `None` comes right after the last one |
| Completion.Complete | cloudy_terminal.py:52-88 | at command position the reply is `matches[state]` of the command list (counting from the back for a negative state) exactly when the state indexes it, and `None` otherwise, so the first states give the predictions in order; elsewhere a non-empty blank token raises IndexError and nothing else does, and otherwise the reply is `matches[state]` of the argument list or `None` in the same way |
| Neofetch.Spaces | cloudy_terminal.py:186 | `" " * n` is n spaces |
| Neofetch.UptimeHours | cloudy_terminal.py:163 | the hours of the day part of the uptime lie in 0..23, and the seconds fall inside that hour |
| Neofetch.UptimeMinutes | cloudy_terminal.py:163 | the minutes lie in 0..59, and the seconds fall inside that minute of the hour |
| Neofetch.UptimeText | cloudy_terminal.py:163 | the f-string `{days}d {hours}h {minutes}m` (a definition over `Text.IntToString`, `Neofetch.UptimeHours` and `Neofetch.UptimeMinutes`, whose contracts state each part) |
| Neofetch.UptimeTruncatesToMinute | cloudy_terminal.py:163 | days, hours and minutes add up to the uptime rounded down to a whole minute |
| Neofetch.SystemInfo | cloudy_terminal.py:145-170 | nine rows in a fixed order, each keyed by its green label; the uptime row shows `{d}d {h}h {m}m`, the CPU frequency row shows `Unknown` when psutil reports no frequency, and the shell row is `Cloudy Terminal` |
| Neofetch.Layout | cloudy_terminal.py:182-195 | the panel rows as a sequence (a definition); `Neofetch.LayoutColumns` states what each row holds |
| Neofetch.LayoutColumns | cloudy_terminal.py:182-195 | the panel has one row per line of the longer column; each row is the logo line (or 40 spaces), then four spaces, then `{key}: {value}` (or nothing) |
| Neofetch.NeofetchRows | cloudy_terminal.py:182-195 | the counting loop prints exactly the rows of the layout |
| Neofetch.PanelWithWindowsLogo | cloudy_terminal.py:122-195 | with the real logo and nine information rows there are 19 rows, and rows 10 to 19 are the logo line followed by the bare gap |
| Neofetch.NeofetchLines | cloudy_terminal.py:181-196 | the arguments of `show_neofetch`'s print calls, in order: `"\n"`, the layout rows, and the colour reset (a definition; each print adds its own line end, so the panel comes after two empty lines and is followed by one) |
| Neofetch.ShowNeofetch | cloudy_terminal.py:172-196 | the print arguments are `"\n"`, then exactly the rows of the layout, then the colour reset |
| Shell.NumberedLine | cloudy_terminal.py:101-102 | the line `{i}. {cmd}` (a definition; `Shell.NumberedLineRoundTrip` reads it back) |
| Shell.HistoryLines | cloudy_terminal.py:100-102 | the history display, numbered from 1 (a definition; characterized by `Shell.HistoryLinesReadBack` and `Shell.HistoryLinesAppend`) |
| Shell.Respond | cloudy_terminal.py:198-216 | what a dispatch decision answers with the history it sees (a definition: the built-in's response, the spawned words, nothing for the empty line, IndexError for a blank one); stated per case by `Shell.Terminal.ExecuteCommand` |
| Shell.Recorded | cloudy_terminal.py:223-226 | the history entries the loop records for a sequence of input lines (a definition; see `Shell.RecordedStep` and `Shell.RecordedEntriesStripped`) |
| Shell.RecordedLine | cloudy_terminal.py:225-226 | the entry one input line records: its stripped form when that is non-empty, nothing otherwise (a definition) |
| Shell.NumberedLineRoundTrip | cloudy_terminal.py:100-102 | a line `{i}. {cmd}` reads back as exactly `i` and `cmd` |
| Shell.HistoryLinesReadBack | cloudy_terminal.py:100-102 | the history display has one line per entry, and line k reads back as number k + 1 with the entry exactly as recorded |
| Shell.HistoryLinesAppend | cloudy_terminal.py:100-102 | one more entry adds exactly one display line, numbered after the others |
| Shell.HistoryShowsItself | cloudy_terminal.py:202-207 | the line `history` is recorded before dispatch, so the display it produces ends with its own numbered line |
| Shell.RecordedStep | cloudy_terminal.py:223-226 | one more input line adds exactly what that line records |
| Shell.RecordedEntriesStripped | cloudy_terminal.py:223-226 | the loop records at most one entry per input line, and every entry is non-empty with no whitespace at either end |
| Shell.StrippedHasCommandWord | cloudy_terminal.py:225 | a stripped line is never dispatched as a blank line without a command word, so its answer is never IndexError |
| Shell.Session | cloudy_terminal.py:223-226 | the answers of the loop to a sequence of input lines from a given history: each line is stripped, recorded, dispatched and answered against the history that now includes it and the system facts of that turn; the loop ends after the first farewell (a definition) |
| Shell.SessionAdvance | cloudy_terminal.py:223-226 | one more turn of the loop extends the answers given so far by the answer to the next line, followed by the rest of the session unless that answer is the farewell |
| Shell.SessionLength | cloudy_terminal.py:223-226 | a session has at most one answer per input line, and it ends before the input does only when its last answer is the farewell |
| Shell.SessionEndsAtExit | cloudy_terminal.py:223-226 | no answer but the last one of a session is the farewell |
| Shell.SessionNoIndexError | cloudy_terminal.py:223-226 | no answer of a session is IndexError |
| Shell.SessionAnswers | cloudy_terminal.py:223-226 | the j-th answer of a session is the answer to input line j, dispatched after stripping and answered against the starting history plus the entries recorded by lines 0 to j, with the system facts of turn j |
| Shell.Terminal.constructor | cloudy_terminal.py:19-22 | a new terminal has an empty history and is running |
| Shell.Terminal.ExitTerminal | cloudy_terminal.py:96-98 | clears the flag, leaves the history unchanged, and prints the farewell |
| Shell.Terminal.ShowHistory | cloudy_terminal.py:100-102 | one line per history entry, line k being `{k + 1}. {entry}` |
| Shell.Terminal.RunBuiltinCommand | cloudy_terminal.py:206-207 | no built-in changes the history; only `exit` clears the flag; the output is the built-in's response |
| Shell.Terminal.ExecuteCommand | cloudy_terminal.py:198-216 | the empty string changes nothing; any other line is appended exactly once before dispatch; the flag clears exactly when the outcome is the farewell; IndexError happens exactly for a non-empty blank line |
| Shell.Terminal.Step | cloudy_terminal.py:224-226 | one turn of the loop records the stripped line if it is non-empty, answers with the response to dispatching the stripped line against the new history, never raises IndexError, and clears the flag exactly when that answer is the farewell |
| Shell.Terminal.Run | cloudy_terminal.py:223-226 | a loop started while running gives exactly the answers of `Shell.Session` on the input (so answer k is the response to line k, by `Shell.SessionAnswers`), and one started after exit gives none; at most one answer per line; no answer but the last is the farewell and none is IndexError; the history grows by exactly the stripped non-empty lines consumed; the flag stays set exactly when the last answer is not the farewell |

## Left out

- External commands. `subprocess.run(parts, shell=True)` and the printing of
  its output are a foreign call. They are modelled as the outcome
  `Spawned(argv)`, which leaves the state unchanged. `argv` is every word of
  the line, as the code passes it. On POSIX, `shell=True` with a list makes
  only `parts[0]` the shell's command line and passes the other words as
  arguments to the shell itself; this platform behaviour is not modelled.
- The filesystem. `glob`, `os.path.isfile`, `os.path.isdir`,
  `os.path.expanduser`, `isabs`, `dirname`, `basename` and `join` depend on
  the real filesystem. Their results are parameters (`Listings`, `Entry`).
  The model also does not capture that the command-position branch calls
  `glob` twice.
- The `try`/`except Exception` around the argument-position glob. Glob
  errors are not modelled, so that branch can never fall back to the empty
  list.
- Readline itself. Registering the completer, setting the word delimiters,
  and `get_line_buffer` are library hooks. The line buffer is a parameter of
  `Complete`.
- System facts. The values from `psutil`, `platform`, `getpass` and
  `datetime` are fields of `SystemFacts`. The floating-point formatting of
  memory and CPU frequency (`:.2f`) is not modelled: those fields arrive
  already formatted. `show_neofetch` gathers these values afresh on every
  call, so `Shell.Session` and `Shell.Terminal.Run` take one `SystemFacts`
  per input line.
- `max_info_length` in `show_neofetch` is computed but never used, so it is
  not modelled.
- Screen output. The model keeps the colorama codes of what it prints: the
  cyan logo lines, the green labels and the reset of the neofetch panel, and
  the yellow farewell. It leaves out the following, which are cosmetic:
  - the red colouring of a spawned command's error output and of the error
    messages in `execute_command` and `run`;
  - the prompt built by `show_prompt` and its green colour;
  - the `show_help` table, which appears only as the outcome `HelpShown`;
  - `clear_screen`'s `os.system` call, which appears only as the outcome
    `ScreenCleared`;
  - the panel and welcome text that `run` prints before its loop.
- Terminal input. In `run`, `input()` is replaced by a finite sequence of
  lines. The `KeyboardInterrupt` message and the generic exception handler
  are left out. At the end of input, `input()` raises EOFError, which the
  generic handler catches, so the loop retries forever. The model's `Run`
  simply stops when its sequence ends.
- Text.Lower: models Python's `lower()` on ASCII letters only. Two
  non-ASCII characters lowercase to something containing an ASCII letter:
  KELVIN SIGN becomes 'k', and LATIN CAPITAL LETTER I WITH DOT ABOVE
  (U+0130) becomes 'i' followed by COMBINING DOT ABOVE (U+0307). None of the
  five keys contains a 'k', and a word holding U+0307 matches no key, so the
  dispatch decision is the same.
- Completion.Predict: fixes one order among equal-length predictions, where
  Python's `set` leaves it unspecified. The contract states only
  membership, no duplicates and non-decreasing length.
