/**
 * The fixed table of built-in commands and the decision `execute_command`
 * makes for one input line: ignore it, fail to find a command word, run a
 * built-in, or hand the words to an external process.
 */
module Commands {
  import opened Wrappers
  import opened Text

  /** The five zero-argument built-ins of the terminal. */
  datatype Builtin = Exit | Clear | History | Help | Neofetch

  /** The keys of the built-in table, in the order the table declares them. */
  const BuiltinNames: seq<string> := ["exit", "clear", "history", "help", "nff"]

  /** The table key under which a built-in is registered. */
  function Name(b: Builtin): (n: string)
    ensures n in BuiltinNames
    ensures Lookup(n) == Some(b)
  {
    match b
    case Exit => "exit"
    case Clear => "clear"
    case History => "history"
    case Help => "help"
    case Neofetch => "nff"
  }

  /** Looking a command word up in the built-in table (`cmd in self.custom_commands`). */
  function Lookup(word: string): (r: Option<Builtin>)
    ensures r.Some? <==> word in BuiltinNames
  {
    if word == "exit" then Some(Exit)
    else if word == "clear" then Some(Clear)
    else if word == "history" then Some(History)
    else if word == "help" then Some(Help)
    else if word == "nff" then Some(Neofetch)
    else None
  }

  /** Every table key names exactly one built-in, and that built-in is found under it. */
  lemma LookupName(word: string)
    requires word in BuiltinNames
    ensures Lookup(word).Some? && Name(Lookup(word).value) == word
  {
  }

  /** All table keys are lower case, so that lookups of a lowered word can find them. */
  lemma BuiltinNamesAreLower(k: nat)
    requires k < |BuiltinNames|
    ensures Lower(BuiltinNames[k]) == BuiltinNames[k]
  {
    var w := BuiltinNames[k];
    assert forall i :: 0 <= i < |w| ==> !IsUpper(w[i]);
  }

  /** What `execute_command` does with one line, once the line is in the history. */
  datatype Action =
    | Ignore                      // the empty string: return at once
    | NoCommandWord               // a blank line: `parts[0]` raises IndexError
    | RunBuiltin(b: Builtin)      // the lowered first word is a table key
    | Spawn(argv: seq<string>)    // everything else goes to `subprocess.run`

  /** The lowered first whitespace-separated word of a line, if it has one. */
  function CommandWord(line: string): (r: Option<string>)
    ensures r.None? <==> AllSpace(line)
    ensures r.Some? ==> r.value == Lower(Split(line)[0]) && r.value != []
  {
    var parts := Split(line);
    if parts == [] then None else Some(Lower(parts[0]))
  }

  /**
   * The dispatch decision of `execute_command` for one line (its properties
   * are stated by `DispatchCases`).
   */
  function Dispatch(command: string): Action {
    if command == [] then Ignore
    else
      var parts := Split(command);
      if parts == [] then NoCommandWord
      else match Lookup(Lower(parts[0]))
        case Some(b) => RunBuiltin(b)
        case None => Spawn(parts)
  }

  /**
   * Only the empty string is ignored; a line of whitespace has no command
   * word; a built-in runs exactly when the lowered first word is a key of the
   * table, and it is the built-in registered under that key; every other
   * line is spawned with all of its words.
   */
  lemma DispatchCases(command: string)
    ensures Dispatch(command) == Ignore <==> command == []
    ensures Dispatch(command) == NoCommandWord <==> command != [] && AllSpace(command)
    ensures Dispatch(command).RunBuiltin? <==>
      CommandWord(command).Some? && CommandWord(command).value in BuiltinNames
    ensures Dispatch(command).RunBuiltin? ==> Name(Dispatch(command).b) == CommandWord(command).value
    ensures Dispatch(command).Spawn? ==> Dispatch(command).argv == Split(command) && Split(command) != []
  {
    if command != [] && Split(command) != [] {
      var w := Lower(Split(command)[0]);
      if w in BuiltinNames {
        LookupName(w);
      }
    }
  }

  /** Two lines whose lowered first words agree are dispatched to the same built-in, or both spawned. */
  lemma DispatchByCommandWord(a: string, b: string)
    requires CommandWord(a).Some? && CommandWord(a) == CommandWord(b)
    ensures Dispatch(a).RunBuiltin? <==> Dispatch(b).RunBuiltin?
    ensures Dispatch(a).RunBuiltin? ==> Dispatch(a) == Dispatch(b)
    ensures Dispatch(a).Spawn? <==> Dispatch(b).Spawn?
  {
    DispatchCases(a);
    DispatchCases(b);
    if Dispatch(a).RunBuiltin? {
      assert Name(Dispatch(a).b) == Name(Dispatch(b).b);
      assert Lookup(Name(Dispatch(a).b)) == Some(Dispatch(a).b);
    }
  }

  /**
   * Built-ins take no arguments: a built-in name, in any ASCII case, followed
   * by whitespace and anything at all, runs that built-in.
   */
  lemma {:induction false} ArgumentsIgnored(lead: string, word: string, rest: string, b: Builtin)
    requires AllSpace(lead)
    requires word != [] && NoSpace(word) && Lower(word) == Name(b)
    requires rest == [] || IsSpace(rest[0])
    ensures Dispatch(lead + word + rest) == RunBuiltin(b)
  {
    SplitHead(lead, word, rest);
    var s := lead + word + rest;
    assert s != [] by { assert |s| >= |word|; }
  }

  /** The command word is case-insensitive: `EXIT` reaches the `exit` built-in. */
  lemma UpperCaseExit()
    ensures Dispatch("EXIT") == RunBuiltin(Exit)
  {
    var w := "EXIT";
    assert NoSpace(w);
    assert Lower(w) == "exit";
    ArgumentsIgnored("", w, "", Exit);
    assert "" + w + "" == w;
  }

  /** Arguments after a built-in are ignored: `History 5` shows the history. */
  lemma HistoryWithArgument()
    ensures Dispatch("History 5") == RunBuiltin(History)
  {
    var w := "History";
    assert NoSpace(w);
    assert Lower(w) == "history";
    ArgumentsIgnored("", w, " 5", History);
    assert "" + w + " 5" == "History 5";
  }

  /** The line `history` runs the `history` built-in. */
  lemma HistoryIsBuiltin()
    ensures Dispatch("history") == RunBuiltin(History)
  {
    var w := "history";
    assert NoSpace(w);
    assert Lower(w) == "history";
    ArgumentsIgnored("", w, "", History);
    assert "" + w + "" == w;
  }
}
