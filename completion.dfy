/**
 * Tab completion: `predict_command`, the two candidate lists `complete`
 * builds (command position and argument position), and the readline
 * protocol of returning the `state`-th candidate or `None`.
 */
module Completion {
  import opened Wrappers
  import opened Text
  import opened Commands

  predicate NoDuplicates(xs: seq<string>) {
    forall i, j :: 0 <= i < j < |xs| ==> xs[i] != xs[j]
  }

  predicate SortedByLength(xs: seq<string>) {
    forall i, j :: 0 <= i < j < |xs| ==> |xs[i]| <= |xs[j]|
  }

  /** `[cmd for cmd in xs if cmd.startswith(p)]`: the entries that have `p` as a prefix, in order. */
  function WithPrefix(xs: seq<string>, p: string): (r: seq<string>)
    ensures |r| <= |xs|
    ensures forall s :: s in r <==> s in xs && p <= s
  {
    if xs == [] then []
    else
      var rest := WithPrefix(xs[1..], p);
      assert forall s :: s in xs <==> s == xs[0] || s in xs[1..];
      if p <= xs[0] then [xs[0]] + rest else rest
  }

  /**
   * `set(xs)` read back as a list: each distinct element once. Python leaves
   * the order of a set unspecified; this model keeps first occurrences.
   */
  function Distinct(xs: seq<string>): (r: seq<string>)
    ensures NoDuplicates(r)
    ensures forall s :: s in r <==> s in xs
  {
    if xs == [] then []
    else
      var init := Distinct(xs[..|xs| - 1]);
      var last := xs[|xs| - 1];
      assert forall s :: s in xs <==> s in xs[..|xs| - 1] || s == last;
      if last in init then init else init + [last]
  }

  /** Places `x` before the first element that is at least as long (a stable insertion). */
  function InsertByLength(x: string, s: seq<string>): (r: seq<string>)
    requires SortedByLength(s)
    ensures SortedByLength(r)
    ensures multiset(r) == multiset(s) + multiset{x}
  {
    if s == [] || |x| <= |s[0]| then
      [x] + s
    else
      var rest := InsertByLength(x, s[1..]);
      assert s == [s[0]] + s[1..];
      InsertKeepsOrder(s[0], x, s[1..], rest);
      [s[0]] + rest
  }

  lemma InsertKeepsOrder(head: string, x: string, tail: seq<string>, rest: seq<string>)
    requires SortedByLength([head] + tail) && |head| < |x|
    requires SortedByLength(rest) && multiset(rest) == multiset(tail) + multiset{x}
    ensures SortedByLength([head] + rest)
  {
    forall i | 0 <= i < |rest| ensures |head| <= |rest[i]| {
      assert rest[i] in multiset(rest);
      if rest[i] != x {
        assert rest[i] in tail;
        var j :| 0 <= j < |tail| && tail[j] == rest[i];
        assert ([head] + tail)[j + 1] == rest[i] && ([head] + tail)[0] == head;
      }
    }
    var r := [head] + rest;
    forall i, j | 0 <= i < j < |r| ensures |r[i]| <= |r[j]| {
      if i > 0 { assert r[i] == rest[i - 1] && r[j] == rest[j - 1]; }
      else { assert r[j] == rest[j - 1]; }
    }
  }

  /** A permutation of a list without duplicates has none either. */
  lemma {:induction false} PermutationNoDuplicates(a: seq<string>, b: seq<string>)
    requires multiset(a) == multiset(b) && NoDuplicates(a)
    ensures NoDuplicates(b)
  {
    forall i, j | 0 <= i < j < |b| ensures b[i] != b[j] {
      if b[i] == b[j] {
        assert b == b[..i] + [b[i]] + b[i + 1..j] + [b[j]] + b[j + 1..];
        assert multiset(b)[b[i]] >= 2;
        MultiplicityAtMostOne(a, b[i]);
        assert false;
      }
    }
  }

  lemma {:induction false} MultiplicityAtMostOne(a: seq<string>, x: string)
    requires NoDuplicates(a)
    ensures multiset(a)[x] <= 1
    decreases |a|
  {
    if a != [] {
      var init := a[..|a| - 1];
      assert a == init + [a[|a| - 1]];
      assert NoDuplicates(init);
      MultiplicityAtMostOne(init, x);
      if a[|a| - 1] == x {
        assert x !in init;
      }
    }
  }

  /** `sorted(xs, key=len)`: a permutation of `xs` in non-decreasing length. */
  function SortByLength(xs: seq<string>): (r: seq<string>)
    ensures SortedByLength(r)
    ensures multiset(r) == multiset(xs)
  {
    if xs == [] then []
    else
      var rest := SortByLength(xs[1..]);
      assert xs == [xs[0]] + xs[1..];
      InsertByLength(xs[0], rest)
  }

  /**
   * `predict_command`: nothing for an empty prefix; otherwise every history
   * entry and every built-in name that starts with the prefix, each exactly
   * once, shortest first. Equal lengths may come in any order.
   */
  function Predict(history: seq<string>, partial: string): (r: seq<string>)
    ensures partial == [] ==> r == []
    ensures partial != [] ==> forall s :: s in r <==> (s in history || s in BuiltinNames) && partial <= s
    ensures NoDuplicates(r)
    ensures SortedByLength(r)
  {
    if partial == [] then []
    else
      var both := WithPrefix(history, partial) + WithPrefix(BuiltinNames, partial);
      var r := SortByLength(Distinct(both));
      PermutationNoDuplicates(Distinct(both), r);
      forall s ensures s in r <==> (s in history || s in BuiltinNames) && partial <= s {
        calc <==> {
          s in r;
          s in multiset(r);
          s in multiset(Distinct(both));
          s in Distinct(both);
          s in both;
          s in WithPrefix(history, partial) || s in WithPrefix(BuiltinNames, partial);
        }
      }
      r
  }

  /** Any two lists meeting the contract of `Predict` hold the same strings and have the same length. */
  lemma {:induction false} PredictDeterminedUpToOrder(a: seq<string>, b: seq<string>)
    requires NoDuplicates(a) && NoDuplicates(b)
    requires forall s :: s in a <==> s in b
    ensures |a| == |b|
  {
    DistinctSize(a);
    DistinctSize(b);
    assert (set s | s in a) == (set s | s in b);
  }

  lemma {:induction false} DistinctSize(a: seq<string>)
    requires NoDuplicates(a)
    ensures |set s | s in a| == |a|
    decreases |a|
  {
    if a != [] {
      var init := a[..|a| - 1];
      assert NoDuplicates(init);
      DistinctSize(init);
      assert a[|a| - 1] !in init;
      assert (set s | s in a) == (set s | s in init) + {a[|a| - 1]};
    }
  }

  /** A prefix that exactly one candidate extends predicts exactly that candidate. */
  lemma {:induction false} PredictSingleMatch(history: seq<string>, partial: string, only: string)
    requires partial != [] && partial <= only && (only in history || only in BuiltinNames)
    requires forall s :: s in history && partial <= s ==> s == only
    requires forall s :: s in BuiltinNames && partial <= s ==> s == only
    ensures Predict(history, partial) == [only]
  {
    var r := Predict(history, partial);
    assert forall s :: s in r <==> s == only;
    PredictDeterminedUpToOrder(r, [only]);
    assert r[0] in r;
  }

  /** Typing `ex` with an empty history predicts the single built-in `exit`. */
  lemma PredictExit()
    ensures Predict([], "ex") == ["exit"]
  {
    var history: seq<string> := [];
    var partial := "ex";
    assert forall s :: s in BuiltinNames && partial <= s ==> s == "exit" by {
      assert partial[0] == 'e' && partial[1] == 'x';
      assert "clear"[0] == 'c' && "history"[0] == 'h' && "help"[0] == 'h' && "nff"[0] == 'n';
    }
    assert partial <= "exit" by { assert "exit"[..2] == partial; }
    PredictSingleMatch(history, partial, "exit");
  }

  // ---------------------------------------------------------------- filesystem listings

  /** What `os.path.isfile` / `os.path.isdir` say of a path that `glob` returned. */
  datatype Kind = File | Directory | Other

  datatype Entry = Entry(path: string, kind: Kind)

  /** `[f for f in glob(...) if os.path.isfile(f)]`. */
  function Files(listing: seq<Entry>): (r: seq<string>)
    ensures |r| <= |listing|
    ensures forall s :: s in r <==> Entry(s, File) in listing
  {
    if listing == [] then []
    else
      var rest := Files(listing[1..]);
      assert forall e :: e in listing <==> e == listing[0] || e in listing[1..];
      if listing[0].kind == File then [listing[0].path] + rest else rest
  }

  /** `[d + os.sep for d in glob(...) if os.path.isdir(d)]`. */
  function Directories(listing: seq<Entry>, sep: string): (r: seq<string>)
    ensures |r| <= |listing|
    ensures forall s :: s in r <==> exists e :: e in listing && e.kind == Directory && s == e.path + sep
  {
    if listing == [] then []
    else
      var rest := Directories(listing[1..], sep);
      assert forall e :: e in listing <==> e == listing[0] || e in listing[1..];
      if listing[0].kind == Directory then [listing[0].path + sep] + rest else rest
  }

  /** The file filter keeps the glob's order: filtering a concatenation filters each part. */
  lemma {:induction false} FilesAppend(a: seq<Entry>, b: seq<Entry>)
    ensures Files(a + b) == Files(a) + Files(b)
    decreases |a|
  {
    if a == [] {
      assert a + b == b;
    } else {
      assert (a + b)[0] == a[0];
      assert (a + b)[1..] == a[1..] + b;
      FilesAppend(a[1..], b);
    }
  }

  /** One globbed path is kept as it is exactly when it is a file. */
  lemma FilesOfOne(e: Entry)
    ensures Files([e]) == if e.kind == File then [e.path] else []
  {
  }

  /** The directory filter keeps the glob's order as well. */
  lemma {:induction false} DirectoriesAppend(a: seq<Entry>, b: seq<Entry>, sep: string)
    ensures Directories(a + b, sep) == Directories(a, sep) + Directories(b, sep)
    decreases |a|
  {
    if a == [] {
      assert a + b == b;
    } else {
      assert (a + b)[0] == a[0];
      assert (a + b)[1..] == a[1..] + b;
      DirectoriesAppend(a[1..], b, sep);
    }
  }

  /** One globbed path is kept, with the separator appended, exactly when it is a directory. */
  lemma DirectoriesOfOne(e: Entry, sep: string)
    ensures Directories([e], sep) == if e.kind == Directory then [e.path + sep] else []
  {
  }

  /**
   * The command-position list: the predictions first, then the files the glob
   * found, then its directories with the separator appended. Nothing is
   * deduplicated or re-sorted after the predictions.
   */
  function CommandCandidates(history: seq<string>, text: string, listing: seq<Entry>, sep: string): (r: seq<string>)
    ensures r == Predict(history, text) + Files(listing) + Directories(listing, sep)
  {
    Predict(history, text) + Files(listing) + Directories(listing, sep)
  }

  /**
   * The predictions come first and unchanged; what follows them is exactly
   * the files and the separator-suffixed directories of the listing.
   */
  lemma CommandCandidatesShape(history: seq<string>, text: string, listing: seq<Entry>, sep: string)
    ensures var p := Predict(history, text);
      var r := CommandCandidates(history, text, listing, sep);
      |p| <= |r| && r[..|p|] == p
      && forall s :: s in r[|p|..] <==>
           Entry(s, File) in listing || exists e :: e in listing && e.kind == Directory && s == e.path + sep
  {
    var p := Predict(history, text);
    var r := CommandCandidates(history, text, listing, sep);
    assert r[..|p|] == p;
    assert r[|p|..] == Files(listing) + Directories(listing, sep);
  }

  /** A history entry that is also a file name is offered twice: the list is not deduplicated. */
  lemma CommandCandidatesMayRepeat(history: seq<string>, text: string, listing: seq<Entry>, sep: string, name: string)
    requires text != [] && text <= name && name in history && Entry(name, File) in listing
    ensures !NoDuplicates(CommandCandidates(history, text, listing, sep))
  {
    var p := Predict(history, text);
    var files := Files(listing);
    var r := CommandCandidates(history, text, listing, sep);
    var i :| 0 <= i < |p| && p[i] == name;
    var j :| 0 <= j < |files| && files[j] == name;
    assert r[i] == name;
    assert r[|p| + j] == name;
  }

  /**
   * A file name shorter than a predicted name comes after it: the list is not
   * sorted by length as a whole.
   */
  lemma CommandCandidatesNotSortedByLength(history: seq<string>, text: string, listing: seq<Entry>, sep: string,
                                           name: string, file: string)
    requires text != [] && text <= name && name in BuiltinNames
    requires Entry(file, File) in listing && |file| < |name|
    ensures !SortedByLength(CommandCandidates(history, text, listing, sep))
  {
    var p := Predict(history, text);
    var files := Files(listing);
    var r := CommandCandidates(history, text, listing, sep);
    assert r == p + files + Directories(listing, sep);
    assert name in p;
    var i :| 0 <= i < |p| && p[i] == name;
    var j :| 0 <= j < |files| && files[j] == file;
    assert r[i] == name;
    assert r[|p| + j] == file;
  }

  /**
   * The argument-position list: when the base directory exists, each globbed
   * path followed by `/` if it is a directory and by a space otherwise.
   */
  function ArgumentCandidates(baseIsDir: bool, listing: seq<Entry>): (r: seq<string>)
    ensures !baseIsDir ==> r == []
    ensures baseIsDir ==> |r| == |listing|
    ensures forall i :: 0 <= i < |r| ==>
      |r[i]| == |listing[i].path| + 1 && r[i][..|listing[i].path|] == listing[i].path
      && (r[i][|listing[i].path|] == '/' <==> listing[i].kind == Directory)
      && (r[i][|listing[i].path|] == ' ' <==> listing[i].kind != Directory)
  {
    if !baseIsDir then []
    else seq(|listing|, i requires 0 <= i < |listing| =>
           listing[i].path + (if listing[i].kind == Directory then "/" else " "))
  }

  /** `text.split()[-1] if text else ''`: the error case is a non-empty blank token. */
  function LastWord(text: string): (r: Option<string>)
    ensures r.None? <==> text != [] && AllSpace(text)
    ensures r.Some? && text != [] ==> r.value == Split(text)[|Split(text)| - 1]
    ensures r.Some? && text != [] ==> r.value != [] && NoSpace(r.value)
    ensures text == [] ==> r == Some([])
  {
    if text == [] then Some([])
    else
      var words := Split(text);
      if words == [] then None else Some(words[|words| - 1])
  }

  /**
   * The last word is the final run of non-whitespace: whatever comes before
   * a whitespace character, and any whitespace after the word, do not matter.
   */
  lemma LastWordOf(lead: string, word: string, trail: string)
    requires lead == [] || IsSpace(lead[|lead| - 1])
    requires word != [] && NoSpace(word) && AllSpace(trail)
    ensures LastWord(lead + word + trail) == Some(word)
  {
    SplitAppend(lead, word + trail);
    SplitHead([], word, trail);
    assert [] + word + trail == word + trail;
    assert lead + word + trail == lead + (word + trail);
  }

  // ---------------------------------------------------------------- the readline protocol

  /**
   * `matches[state]` with Python's indexing, `None` where it raises IndexError:
   * states from 0 count from the front, negative states from the back.
   */
  function Index(matches: seq<string>, state: int): (r: Option<string>)
    ensures r.Some? <==> -|matches| <= state < |matches|
    ensures 0 <= state < |matches| ==> r.value == matches[state]
    ensures -|matches| <= state < 0 ==> r.value == matches[|matches| + state]
  {
    if 0 <= state < |matches| then Some(matches[state])
    else if -|matches| <= state < 0 then Some(matches[|matches| + state])
    else None
  }

  /**
   * Asking for states 0, 1, 2, ... yields the candidates in order and the
   * first `None` comes exactly after the last of them.
   */
  lemma {:induction false} IndexEnumerates(matches: seq<string>, n: nat)
    requires n <= |matches|
    ensures forall k :: 0 <= k < n ==> Index(matches, k).Some?
    ensures seq(n, k requires 0 <= k < n => Index(matches, k).value) == matches[..n]
    ensures Index(matches, |matches|) == None
  {
    if n > 0 {
      IndexEnumerates(matches, n - 1);
      assert seq(n, k requires 0 <= k < n => Index(matches, k).value)
          == seq(n - 1, k requires 0 <= k < n - 1 => Index(matches, k).value) + [matches[n - 1]];
      assert matches[..n] == matches[..n - 1] + [matches[n - 1]];
    }
  }

  /** What one call of `complete` gives readline. */
  datatype Reply = Candidate(text: string) | NoMoreCandidates | IndexErrorRaised

  /** The glob results `complete` works from (the filesystem itself is not modelled). */
  datatype Listings = Listings(
    commandListing: seq<Entry>,   // glob(text + '*') in the current directory
    sep: string,                  // os.sep
    baseIsDir: bool,              // os.path.isdir(base_path)
    argumentListing: seq<Entry>)  // glob(join(base_path, pattern))

  /**
   * `complete(text, state)`: at command position (the stripped line buffer is
   * the token itself) index the command candidates, otherwise the argument
   * candidates; a blank non-empty token raises before any candidate is built.
   */
  function Complete(history: seq<string>, line: string, text: string, state: int, fs: Listings): (r: Reply)
    ensures Strip(line) == text ==>
      var c := CommandCandidates(history, text, fs.commandListing, fs.sep);
      (r.Candidate? <==> -|c| <= state < |c|)
      && (r.Candidate? ==> r.text == c[if 0 <= state then state else |c| + state])
      && (!r.Candidate? ==> r == NoMoreCandidates)
    ensures Strip(line) == text && 0 <= state < |Predict(history, text)| ==>
      r == Candidate(Predict(history, text)[state])
    ensures Strip(line) != text ==> (r == IndexErrorRaised <==> text != [] && AllSpace(text))
    ensures Strip(line) != text && !(text != [] && AllSpace(text)) ==>
      var a := ArgumentCandidates(fs.baseIsDir, fs.argumentListing);
      (r.Candidate? <==> -|a| <= state < |a|)
      && (r.Candidate? ==> r.text == a[if 0 <= state then state else |a| + state])
      && (!r.Candidate? ==> r == NoMoreCandidates)
  {
    var matches :=
      if Strip(line) == text then Some(CommandCandidates(history, text, fs.commandListing, fs.sep))
      else if LastWord(text).None? then None
      else Some(ArgumentCandidates(fs.baseIsDir, fs.argumentListing));
    match matches
    case None => IndexErrorRaised
    case Some(m) =>
      match Index(m, state)
      case Some(c) => Candidate(c)
      case None => NoMoreCandidates
  }
}
