/**
 * The terminal session: a `CustomTerminal` object whose history list and
 * running flag the built-ins and `execute_command` update in place, and the
 * `run` loop that feeds it stripped input lines until `exit`.
 */
module Shell {
  import opened Wrappers
  import opened Text
  import opened Commands
  import opened Neofetch

  const Yellow := "\U{1B}[33m"   // colorama Fore.YELLOW

  /** What `exit_terminal` prints. */
  const Farewell: string := Yellow + "Goodbye!" + Reset

  // ---------------------------------------------------------------- history display

  /** One line of `show_history`: `{i}. {cmd}`. */
  function NumberedLine(i: nat, cmd: string): string {
    NatToString(i) + ". " + cmd
  }

  /** Reads a printed history line back into its number and its entry. */
  function ParseNumberedLine(line: string): Option<(nat, string)> {
    var n := DigitPrefixLength(line);
    if 0 < n && n + 2 <= |line| && line[n..n + 2] == ". " then Some((ParseDigits(line[..n]), line[n + 2..]))
    else None
  }

  /** A numbered line gives back exactly the number and the entry it was made from. */
  lemma NumberedLineRoundTrip(i: nat, cmd: string)
    ensures ParseNumberedLine(NumberedLine(i, cmd)) == Some((i, cmd))
  {
    var digits := NatToString(i);
    var line := NumberedLine(i, cmd);
    assert line == digits + (". " + cmd);
    DigitPrefixOf(digits, ". " + cmd);
    assert line[..|digits|] == digits;
    assert line[|digits|..|digits| + 2] == ". ";
    assert line[|digits| + 2..] == cmd;
    ParseNatToString(i);
  }

  /** Everything `show_history` prints for a history. */
  function HistoryLines(history: seq<string>): seq<string> {
    seq(|history|, k requires 0 <= k < |history| => NumberedLine(k + 1, history[k]))
  }

  /**
   * The printed history has one line per entry, in insertion order, and
   * line `k` reads back as number `k + 1` with the entry exactly as typed.
   */
  lemma HistoryLinesReadBack(history: seq<string>, k: nat)
    requires k < |history|
    ensures |HistoryLines(history)| == |history|
    ensures ParseNumberedLine(HistoryLines(history)[k]) == Some((k + 1, history[k]))
  {
    NumberedLineRoundTrip(k + 1, history[k]);
  }

  // ---------------------------------------------------------------- outcomes

  /** What one call of `execute_command` shows or hands over. */
  datatype Outcome =
    | Ignored                          // the empty string
    | IndexError                       // a blank line has no `parts[0]`
    | Exited(farewell: string)
    | ScreenCleared
    | HistoryShown(lines: seq<string>)
    | HelpShown
    | NeofetchShown(lines: seq<string>)
    | Spawned(argv: seq<string>)       // `subprocess.run(parts, shell=True)`

  /** The outcome of a dispatch decision, given the history as it is after the line was recorded. */
  function Respond(a: Action, history: seq<string>, f: SystemFacts): Outcome {
    match a
    case Ignore => Ignored
    case NoCommandWord => IndexError
    case RunBuiltin(b) =>
      (match b
       case Exit => Exited(Farewell)
       case Clear => ScreenCleared
       case History => HistoryShown(HistoryLines(history))
       case Help => HelpShown
       case Neofetch => NeofetchShown(NeofetchLines(f)))
    case Spawn(argv) => Spawned(argv)
  }

  /** The entries the run loop records for its input lines: each stripped, the empty ones dropped. */
  function Recorded(inputs: seq<string>): seq<string> {
    if inputs == [] then []
    else
      var init := Recorded(inputs[..|inputs| - 1]);
      init + RecordedLine(inputs[|inputs| - 1])
  }

  /** What the loop records for one input line: the stripped line, unless it is empty. */
  function RecordedLine(input: string): seq<string> {
    if Strip(input) == [] then [] else [Strip(input)]
  }

  lemma RecordedStep(inputs: seq<string>, i: nat)
    requires i < |inputs|
    ensures Recorded(inputs[..i + 1]) == Recorded(inputs[..i]) + RecordedLine(inputs[i])
  {
    assert inputs[..i + 1][..i] == inputs[..i];
  }

  /**
   * What a running session answers to its input lines from line `from` on,
   * starting from a history: each line is stripped, recorded unless empty,
   * and dispatched on the history as it then stands; the session ends after
   * the first farewell or when the lines run out. `facts[k]` is what the
   * system reports at turn `k`: `show_neofetch` gathers it afresh on every
   * call, so two `nff` turns may print different panels.
   */
  function Session(inputs: seq<string>, from: nat, history: seq<string>, facts: seq<SystemFacts>): seq<Outcome>
    requires from <= |inputs| && |facts| == |inputs|
    decreases |inputs| - from
  {
    if from == |inputs| then []
    else
      var h := history + RecordedLine(inputs[from]);
      var out := Respond(Dispatch(Strip(inputs[from])), h, facts[from]);
      [out] + (if out.Exited? then [] else Session(inputs, from + 1, h, facts))
  }

  /** One more turn of a session whose answers so far are `done`. */
  lemma SessionAdvance(inputs: seq<string>, i: nat, h0: seq<string>, done: seq<Outcome>, history: seq<string>, facts: seq<SystemFacts>)
    requires i < |inputs| && |facts| == |inputs|
    requires Session(inputs, 0, h0, facts) == done + Session(inputs, i, history, facts)
    ensures var h := history + RecordedLine(inputs[i]);
      var out := Respond(Dispatch(Strip(inputs[i])), h, facts[i]);
      Session(inputs, 0, h0, facts) == (done + [out]) + (if out.Exited? then [] else Session(inputs, i + 1, h, facts))
  {
    var h := history + RecordedLine(inputs[i]);
    var out := Respond(Dispatch(Strip(inputs[i])), h, facts[i]);
    var tail := if out.Exited? then [] else Session(inputs, i + 1, h, facts);
    assert Session(inputs, i, history, facts) == [out] + tail;
    AppendAssociative(done, [out], tail);
  }

  /** No answer but the last is a farewell. */
  predicate StopsAtFirstExit(outcomes: seq<Outcome>) {
    forall k :: 0 <= k < |outcomes| - 1 ==> !outcomes[k].Exited?
  }

  /** No answer is the `IndexError` a blank command raises. */
  predicate NeverIndexError(outcomes: seq<Outcome>) {
    forall k :: 0 <= k < |outcomes| ==> outcomes[k] != IndexError
  }

  /** A session answers at most one outcome per line, and stops early only right after a farewell. */
  lemma {:induction false} SessionLength(inputs: seq<string>, from: nat, history: seq<string>, facts: seq<SystemFacts>)
    requires from <= |inputs| && |facts| == |inputs|
    ensures var r := Session(inputs, from, history, facts);
      |r| <= |inputs| - from && (|r| < |inputs| - from ==> 0 < |r| && r[|r| - 1].Exited?)
    decreases |inputs| - from
  {
    if from < |inputs| {
      var h := history + RecordedLine(inputs[from]);
      var out := Respond(Dispatch(Strip(inputs[from])), h, facts[from]);
      var tail := if out.Exited? then [] else Session(inputs, from + 1, h, facts);
      assert Session(inputs, from, history, facts) == [out] + tail;
      if !out.Exited? {
        SessionLength(inputs, from + 1, h, facts);
      }
      PrependLength(out, tail, |inputs| - from);
    }
  }

  /** An answer put before a shorter run of answers that ends early only at a farewell. */
  lemma PrependLength(out: Outcome, tail: seq<Outcome>, n: nat)
    requires 0 < n && |tail| <= n - 1
    requires |tail| < n - 1 ==> (0 < |tail| && tail[|tail| - 1].Exited?) || (out.Exited? && tail == [])
    ensures var r := [out] + tail;
      |r| <= n && (|r| < n ==> 0 < |r| && r[|r| - 1].Exited?)
  {
    var r := [out] + tail;
    if 0 < |tail| {
      assert r[|r| - 1] == tail[|tail| - 1];
    }
  }

  /** A farewell is always the last answer of a session: nothing runs after `exit`. */
  lemma {:induction false} SessionEndsAtExit(inputs: seq<string>, from: nat, history: seq<string>, facts: seq<SystemFacts>)
    requires from <= |inputs| && |facts| == |inputs|
    ensures StopsAtFirstExit(Session(inputs, from, history, facts))
    decreases |inputs| - from
  {
    if from < |inputs| {
      var h := history + RecordedLine(inputs[from]);
      var out := Respond(Dispatch(Strip(inputs[from])), h, facts[from]);
      var tail := if out.Exited? then [] else Session(inputs, from + 1, h, facts);
      var r := Session(inputs, from, history, facts);
      assert r == [out] + tail;
      if !out.Exited? {
        SessionEndsAtExit(inputs, from + 1, h, facts);
        forall k | 0 <= k < |r| - 1
          ensures !r[k].Exited?
        {
          if 0 < k { assert r[k] == tail[k - 1]; }
        }
      }
    }
  }

  /** Input lines are stripped first, so no answer of a session is IndexError. */
  lemma {:induction false} SessionNoIndexError(inputs: seq<string>, from: nat, history: seq<string>, facts: seq<SystemFacts>)
    requires from <= |inputs| && |facts| == |inputs|
    ensures NeverIndexError(Session(inputs, from, history, facts))
    decreases |inputs| - from
  {
    if from < |inputs| {
      var h := history + RecordedLine(inputs[from]);
      var out := Respond(Dispatch(Strip(inputs[from])), h, facts[from]);
      var tail := if out.Exited? then [] else Session(inputs, from + 1, h, facts);
      var r := Session(inputs, from, history, facts);
      assert r == [out] + tail;
      StrippedHasCommandWord(inputs[from], h, facts[from]);
      if !out.Exited? {
        SessionNoIndexError(inputs, from + 1, h, facts);
      }
      PrependNoIndexError(out, tail);
    }
  }

  /** An answer that is not IndexError, put before answers that are not either. */
  lemma PrependNoIndexError(out: Outcome, tail: seq<Outcome>)
    requires out != IndexError && NeverIndexError(tail)
    ensures NeverIndexError([out] + tail)
  {
    var r := [out] + tail;
    forall k | 0 <= k < |r|
      ensures r[k] != IndexError
    {
      if 0 < k { assert r[k] == tail[k - 1]; }
    }
  }

  /**
   * Answer `j - from` of a session started at line `from` is line `j`
   * stripped and dispatched on the starting history plus everything
   * recorded up to and including line `j`.
   */
  lemma {:induction false} SessionAnswers(inputs: seq<string>, from: nat, h0: seq<string>, history: seq<string>, facts: seq<SystemFacts>, j: nat)
    requires from <= j && from <= |inputs| && |facts| == |inputs|
    requires history == h0 + Recorded(inputs[..from])
    requires j - from < |Session(inputs, from, history, facts)|
    ensures j < |inputs|
    ensures Session(inputs, from, history, facts)[j - from]
      == Respond(Dispatch(Strip(inputs[j])), h0 + Recorded(inputs[..j + 1]), facts[j])
    decreases j - from
  {
    var h := history + RecordedLine(inputs[from]);
    var out := Respond(Dispatch(Strip(inputs[from])), h, facts[from]);
    var r := Session(inputs, from, history, facts);
    RecordedStep(inputs, from);
    assert h == h0 + Recorded(inputs[..from + 1]) by {
      AppendAssociative(h0, Recorded(inputs[..from]), RecordedLine(inputs[from]));
    }
    if j == from {
      assert r[0] == out;
    } else {
      var rest := Session(inputs, from + 1, h, facts);
      assert r == [out] + rest;
      assert r[j - from] == rest[j - (from + 1)];
      SessionAnswers(inputs, from + 1, h0, h, facts, j);
    }
  }

  lemma AppendAssociative<T>(a: seq<T>, b: seq<T>, c: seq<T>)
    ensures a + b + c == a + (b + c)
  {
  }

  /** At most one entry per input line, and every recorded entry is non-empty with no surrounding whitespace. */
  lemma {:induction false} RecordedEntriesStripped(inputs: seq<string>)
    ensures |Recorded(inputs)| <= |inputs|
    ensures forall k :: 0 <= k < |Recorded(inputs)| ==>
      Recorded(inputs)[k] != [] && !IsSpace(Recorded(inputs)[k][0])
      && !IsSpace(Recorded(inputs)[k][|Recorded(inputs)[k]| - 1])
  {
    if inputs != [] {
      RecordedEntriesStripped(inputs[..|inputs| - 1]);
      StripTrims(inputs[|inputs| - 1]);
    }
  }

  /** A stripped line is never blank without being empty, so the run loop never meets IndexError. */
  lemma StrippedHasCommandWord(input: string, history: seq<string>, f: SystemFacts)
    ensures Dispatch(Strip(input)) != NoCommandWord
    ensures Respond(Dispatch(Strip(input)), history, f) != IndexError
  {
    var s := Strip(input);
    StripTrims(input);
    if s != [] {
      assert !IsSpace(s[0]);
    }
  }

  class Terminal {
    /** `command_history`: every line given to `execute_command`, in order. */
    var history: seq<string>
    /** `running`: the loop in `run` continues while it holds. */
    var running: bool

    constructor ()
      ensures history == [] && running
    {
      history := [];
      running := true;
    }

    /** `exit_terminal`: clears the flag and says goodbye; the history is untouched. */
    method ExitTerminal() returns (farewell: string)
      modifies this
      ensures !running && history == old(history)
      ensures farewell == Farewell
    {
      running := false;
      farewell := Farewell;
    }

    /** `show_history`: one numbered line per entry, counting from 1. */
    method ShowHistory() returns (lines: seq<string>)
      ensures |lines| == |history|
      ensures forall k :: 0 <= k < |lines| ==> lines[k] == NumberedLine(k + 1, history[k])
    {
      lines := [];
      var i := 0;
      while i < |history|
        invariant 0 <= i <= |history| && |lines| == i
        invariant forall k :: 0 <= k < i ==> lines[k] == NumberedLine(k + 1, history[k])
      {
        lines := lines + [NumberedLine(i + 1, history[i])];
        i := i + 1;
      }
    }

    /** Calls the built-in's method, as `self.custom_commands[cmd]()` does. */
    method RunBuiltinCommand(b: Builtin, f: SystemFacts) returns (out: Outcome)
      modifies this
      ensures history == old(history)
      ensures running == (old(running) && b != Exit)
      ensures out == Respond(RunBuiltin(b), history, f)
    {
      match b
      case Exit =>
        var farewell := ExitTerminal();
        out := Exited(farewell);
      case Clear =>
        out := ScreenCleared;
      case History =>
        var lines := ShowHistory();
        out := HistoryShown(lines);
      case Help =>
        out := HelpShown;
      case Neofetch =>
        var lines := ShowNeofetch(f);
        out := NeofetchShown(lines);
    }

    /**
     * `execute_command`: the empty string changes nothing; any other line is
     * appended to the history before it is dispatched, so a built-in sees the
     * history with its own line at the end. Only `exit` clears the flag.
     */
    method ExecuteCommand(command: string, f: SystemFacts) returns (out: Outcome)
      modifies this
      ensures history == if command == [] then old(history) else old(history) + [command]
      ensures out == Respond(Dispatch(command), history, f)
      ensures running == (old(running) && !out.Exited?)
      ensures out == IndexError <==> command != [] && AllSpace(command)
    {
      if command == [] {
        out := Ignored;
        return;
      }
      history := history + [command];
      var parts := Split(command);
      if parts == [] {
        out := IndexError;
        return;
      }
      var cmd := Lower(parts[0]);
      match Lookup(cmd)
      case Some(b) =>
        out := RunBuiltinCommand(b, f);
      case None =>
        out := Spawned(parts);
    }

    /** One turn of the loop in `run`: strip the line that was read and execute it. */
    method Step(input: string, f: SystemFacts) returns (out: Outcome)
      modifies this
      ensures history == old(history) + RecordedLine(input)
      ensures out == Respond(Dispatch(Strip(input)), history, f)
      ensures running == (old(running) && !out.Exited?)
      ensures out != IndexError
    {
      var command := Strip(input);
      StripTrims(input);
      out := ExecuteCommand(command, f);
      if command == [] {
        assert history == old(history);
      } else {
        assert history == old(history) + [command];
      }
    }

    /**
     * The loop of `run`: while the flag holds, strip the next input line and
     * execute it. The outcomes are the session's answers (turn `k` answers
     * line `k` on the history recorded up to it, by `SessionAnswers`). The
     * loop stops at the first `exit` and otherwise consumes every line; the
     * history grows by the stripped non-empty lines it consumed, and no turn
     * raises IndexError. `facts[k]` is the system state turn `k` observes.
     */
    method Run(inputs: seq<string>, facts: seq<SystemFacts>) returns (outcomes: seq<Outcome>)
      requires |facts| == |inputs|
      modifies this
      ensures old(running) ==> outcomes == Session(inputs, 0, old(history), facts)
      ensures !old(running) ==> outcomes == [] && !running
      ensures |outcomes| <= |inputs|
      ensures history == old(history) + Recorded(inputs[..|outcomes|])
      ensures |outcomes| < |inputs| ==> !running
      ensures NeverIndexError(outcomes)
      ensures StopsAtFirstExit(outcomes)
      ensures running <==> old(running) && (outcomes == [] || !outcomes[|outcomes| - 1].Exited?)
    {
      outcomes := [];
      if !running {
        return;  // `while self.running` does not enter the loop
      }
      ghost var h0 := history;
      var i := 0;
      while running && i < |inputs|
        invariant 0 <= i <= |inputs| && |outcomes| == i
        invariant history == h0 + Recorded(inputs[..i])
        invariant Session(inputs, 0, h0, facts) == outcomes + (if running then Session(inputs, i, history, facts) else [])
        invariant running <==> i == 0 || !outcomes[i - 1].Exited?
      {
        RecordedStep(inputs, i);
        SessionAdvance(inputs, i, h0, outcomes, history, facts);
        ghost var done := Recorded(inputs[..i]);
        var out := Step(inputs[i], facts[i]);
        assert history == h0 + Recorded(inputs[..i + 1]) by {
          AppendAssociative(h0, done, RecordedLine(inputs[i]));
        }
        outcomes := outcomes + [out];
        i := i + 1;
      }
      SessionLength(inputs, 0, h0, facts);
      SessionEndsAtExit(inputs, 0, h0, facts);
      SessionNoIndexError(inputs, 0, h0, facts);
    }
  }

  /** Recording one more entry adds exactly one line to the printed history, numbered after the rest. */
  lemma HistoryLinesAppend(history: seq<string>, cmd: string)
    ensures HistoryLines(history + [cmd]) == HistoryLines(history) + [NumberedLine(|history| + 1, cmd)]
  {
    var h := history + [cmd];
    assert forall k :: 0 <= k < |history| ==> h[k] == history[k];
  }

  /**
   * `history` lists itself: the line is recorded before it is dispatched, so
   * after entries `h` the display ends with `{|h| + 1}. history`.
   */
  lemma HistoryShowsItself(h: seq<string>, f: SystemFacts)
    ensures Respond(Dispatch("history"), h + ["history"], f)
         == HistoryShown(HistoryLines(h) + [NumberedLine(|h| + 1, "history")])
  {
    HistoryIsBuiltin();
    HistoryLinesAppend(h, "history");
  }
}
