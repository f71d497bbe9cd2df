/**
 * The pieces of Python's `str` that the terminal relies on: `isspace`,
 * `strip()`, `split()` with no separator, `lower()`, and the decimal
 * rendering that f-strings apply to integers.
 */
module Text {

  /** Python's `str.isspace()` for a single character. */
  predicate IsSpace(c: char) {
    c == ' ' || ('\t' <= c <= '\r') || ('\U{1C}' <= c <= '\U{1F}')
    || c == '\U{85}' || c == '\U{A0}' || c == '\U{1680}'
    || ('\U{2000}' <= c <= '\U{200A}') || c == '\U{2028}' || c == '\U{2029}'
    || c == '\U{202F}' || c == '\U{205F}' || c == '\U{3000}'
  }

  predicate AllSpace(s: string) {
    forall i :: 0 <= i < |s| ==> IsSpace(s[i])
  }

  predicate NoSpace(s: string) {
    forall i :: 0 <= i < |s| ==> !IsSpace(s[i])
  }

  // ---------------------------------------------------------------- strip

  /**
   * `s.strip()`: `s` without its leading and trailing whitespace. It drops one
   * blank character at a time, from the front first, then from the back.
   */
  function Strip(s: string): string
    decreases |s|
  {
    if s == [] then []
    else if IsSpace(s[0]) then Strip(s[1..])
    else if IsSpace(s[|s| - 1]) then Strip(s[..|s| - 1])
    else s
  }

  /**
   * `strip()` gives the empty string exactly for blank input, and otherwise
   * a string that neither starts nor ends with whitespace.
   */
  lemma {:induction false} StripTrims(s: string)
    ensures Strip(s) == [] <==> AllSpace(s)
    ensures Strip(s) == [] || (!IsSpace(Strip(s)[0]) && !IsSpace(Strip(s)[|Strip(s)| - 1]))
    decreases |s|
  {
    if s == [] {
    } else if IsSpace(s[0]) {
      StripTrims(s[1..]);
      assert AllSpace(s) <==> AllSpace(s[1..]) by {
        assert forall k :: 0 < k < |s| ==> s[k] == s[1..][k - 1];
      }
    } else if IsSpace(s[|s| - 1]) {
      StripTrims(s[..|s| - 1]);
      assert !AllSpace(s[..|s| - 1]) by { assert s[..|s| - 1][0] == s[0]; }
    }
  }

  /** The number of whitespace characters `s` starts with. */
  function LeadingSpace(s: string): (n: nat)
    ensures n <= |s| && AllSpace(s[..n])
    ensures n == |s| || !IsSpace(s[n])
  {
    if s != [] && IsSpace(s[0]) then
      var n := 1 + LeadingSpace(s[1..]);
      assert forall k :: 0 < k < n ==> s[..n][k] == s[1..][..n - 1][k - 1];
      n
    else 0
  }

  /** `r` occurs in `s` at offset `i`, with only whitespace before and after it. */
  predicate Infix(s: string, r: string, i: nat) {
    i + |r| <= |s| && r == s[i..i + |r|] && AllSpace(s[..i]) && AllSpace(s[i + |r|..])
  }

  /** `s.strip()` is the part of `s` between a blank head and a blank tail. */
  lemma {:induction false} StripInfix(s: string)
    ensures Infix(s, Strip(s), LeadingSpace(s))
    decreases |s|
  {
    if s == [] {
    } else if IsSpace(s[0]) {
      StripInfix(s[1..]);
      InfixAfterBlank(s, Strip(s), LeadingSpace(s[1..]));
    } else if IsSpace(s[|s| - 1]) {
      var t := s[..|s| - 1];
      assert t[0] == s[0];
      StripInfix(t);
      InfixBeforeBlank(s, Strip(s));
    } else {
      assert s[..0] == [];
    }
  }

  lemma InfixAfterBlank(s: string, r: string, i: nat)
    requires s != [] && IsSpace(s[0]) && Infix(s[1..], r, i)
    ensures Infix(s, r, i + 1)
  {
    assert s[1..][i..i + |r|] == s[i + 1..i + 1 + |r|];
    assert s[1..][i + |r|..] == s[i + 1 + |r|..];
  }

  lemma InfixBeforeBlank(s: string, r: string)
    requires s != [] && IsSpace(s[|s| - 1]) && Infix(s[..|s| - 1], r, 0)
    ensures Infix(s, r, 0)
  {
    var t := s[..|s| - 1];
    assert t[..|r|] == s[..|r|];
    assert s[|r|..] == t[|r|..] + [s[|s| - 1]];
  }

  /** Whitespace in front makes no difference to `strip()`. */
  lemma {:induction false} StripBlankHead(lead: string, rest: string)
    requires AllSpace(lead)
    ensures Strip(lead + rest) == Strip(rest)
  {
    if lead == [] {
      assert lead + rest == rest;
    } else {
      assert (lead + rest)[0] == lead[0];
      assert (lead + rest)[1..] == lead[1..] + rest;
      StripBlankHead(lead[1..], rest);
    }
  }

  /** Whitespace after a stripped core is all that `strip()` removes. */
  lemma {:induction false} StripBlankTail(core: string, trail: string)
    requires AllSpace(trail)
    requires core == [] || (!IsSpace(core[0]) && !IsSpace(core[|core| - 1]))
    ensures Strip(core + trail) == core
  {
    var s := core + trail;
    if trail == [] {
      assert s == core;
    } else if core == [] {
      assert s == trail;
      StripTrims(trail);
    } else {
      assert s[0] == core[0];
      assert s[|s| - 1] == trail[|trail| - 1];
      assert s[..|s| - 1] == core + trail[..|trail| - 1];
      StripBlankTail(core, trail[..|trail| - 1]);
    }
  }

  /** Stripping whitespace that surrounds a core that is already stripped recovers the core. */
  lemma StripPadded(lead: string, core: string, trail: string)
    requires AllSpace(lead) && AllSpace(trail)
    requires core == [] || (!IsSpace(core[0]) && !IsSpace(core[|core| - 1]))
    ensures Strip(lead + (core + trail)) == core
  {
    StripBlankTail(core, trail);
    StripBlankHead(lead, core + trail);
  }

  // ---------------------------------------------------------------- split

  /** The characters of `s` that are not whitespace, in order. */
  function NonSpace(s: string): string {
    if s == [] then []
    else if IsSpace(s[0]) then NonSpace(s[1..])
    else [s[0]] + NonSpace(s[1..])
  }

  /** The concatenation of a list of words. */
  function Concat(words: seq<string>): string {
    if words == [] then [] else words[0] + Concat(words[1..])
  }

  /** The length of the maximal run of non-whitespace characters at the head of `s`. */
  function WordLength(s: string): (n: nat)
    requires s != [] && !IsSpace(s[0])
    ensures 0 < n <= |s| && NoSpace(s[..n])
    ensures n == |s| || IsSpace(s[n])
  {
    if |s| == 1 || IsSpace(s[1]) then 1
    else
      var m := WordLength(s[1..]);
      assert s[..m + 1] == [s[0]] + s[1..][..m];
      m + 1
  }

  lemma {:induction false} NonSpaceAppend(a: string, b: string)
    ensures NonSpace(a + b) == NonSpace(a) + NonSpace(b)
  {
    if a == [] {
      assert a + b == b;
    } else {
      assert (a + b)[0] == a[0];
      assert (a + b)[1..] == a[1..] + b;
      NonSpaceAppend(a[1..], b);
    }
  }

  lemma {:induction false} NonSpaceOfWord(w: string)
    requires NoSpace(w)
    ensures NonSpace(w) == w
  {
    if w != [] {
      NonSpaceOfWord(w[1..]);
    }
  }

  /**
   * Python's `s.split()`: the maximal runs of non-whitespace characters.
   * Every word is non-empty and free of whitespace, the words together hold
   * exactly the non-whitespace characters of `s` in order, and there are no
   * words exactly when `s` is blank.
   */
  function Split(s: string): (r: seq<string>)
    ensures forall k :: 0 <= k < |r| ==> r[k] != [] && NoSpace(r[k])
    ensures Concat(r) == NonSpace(s)
    ensures r == [] <==> AllSpace(s)
    decreases |s|
  {
    if s == [] then []
    else if IsSpace(s[0]) then Split(s[1..])
    else
      var n := WordLength(s);
      var rest := Split(s[n..]);
      var r := [s[..n]] + rest;
      assert r[1..] == rest;
      assert s == s[..n] + s[n..];
      NonSpaceAppend(s[..n], s[n..]);
      NonSpaceOfWord(s[..n]);
      assert !AllSpace(s) by { assert !IsSpace(s[0]); }
      r
  }

  /**
   * The first word of a line is its leading run of non-whitespace characters
   * after any leading whitespace, whatever follows a whitespace character.
   */
  lemma {:induction false} SplitHead(lead: string, word: string, rest: string)
    requires AllSpace(lead)
    requires word != [] && NoSpace(word)
    requires rest == [] || IsSpace(rest[0])
    ensures Split(lead + word + rest) != []
    ensures Split(lead + word + rest)[0] == word
    ensures Split(lead + word + rest)[1..] == Split(rest)
  {
    var s := lead + word + rest;
    if lead == [] {
      assert s == word + rest;
      assert !IsSpace(s[0]) by { assert s[0] == word[0]; }
      var n := WordLength(s);
      assert forall k :: 0 <= k < |word| ==> s[k] == word[k];
      assert rest != [] ==> s[|word|] == rest[0];
      assert n <= |word| ==> s[..n] == word[..n];
      assert n == |word|;
      assert s[..n] == word;
      assert s[n..] == rest;
    } else {
      assert IsSpace(s[0]) by { assert s[0] == lead[0]; }
      assert s[1..] == lead[1..] + word + rest;
      SplitHead(lead[1..], word, rest);
    }
  }

  /** The head word of `s` is the one run of non-whitespace that ends at a space or at the end. */
  lemma WordLengthUnique(s: string, m: nat)
    requires s != [] && !IsSpace(s[0])
    requires 0 < m <= |s| && NoSpace(s[..m]) && (m == |s| || IsSpace(s[m]))
    ensures WordLength(s) == m
  {
    var n := WordLength(s);
    forall k | 0 <= k < n
      ensures !IsSpace(s[k])
    {
      assert s[..n][k] == s[k];
    }
    forall k | 0 <= k < m
      ensures !IsSpace(s[k])
    {
      assert s[..m][k] == s[k];
    }
  }

  /** A break at whitespace splits independently on both sides of it. */
  lemma {:induction false} SplitAppend(a: string, b: string)
    requires a == [] || IsSpace(a[|a| - 1])
    ensures Split(a + b) == Split(a) + Split(b)
    decreases |a|
  {
    var s := a + b;
    if a == [] {
      assert s == b;
    } else if IsSpace(a[0]) {
      assert s[0] == a[0];
      assert s[1..] == a[1..] + b;
      SplitAppend(a[1..], b);
    } else {
      assert s[0] == a[0];
      var n := WordLength(a);
      assert n < |a|;
      assert s[..n] == a[..n];
      assert s[n] == a[n];
      WordLengthUnique(s, n);
      assert s[n..] == a[n..] + b;
      SplitAppend(a[n..], b);
    }
  }

  // ---------------------------------------------------------------- lower

  predicate IsUpper(c: char) { 'A' <= c <= 'Z' }

  /** `c.lower()` for the ASCII letters; every other character is left as it is. */
  function LowerChar(c: char): (d: char)
    ensures !IsUpper(d)
    ensures IsUpper(c) ==> d as int == c as int + 32
    ensures !IsUpper(c) ==> d == c
  {
    if IsUpper(c) then (c as int + 32) as char else c
  }

  /** `s.lower()` restricted to ASCII case mapping: same length, each character lowered. */
  function Lower(s: string): (r: string)
    ensures |r| == |s|
    ensures forall i :: 0 <= i < |r| ==> !IsUpper(r[i])
    ensures forall i :: 0 <= i < |r| ==> (r[i] == s[i] <==> !IsUpper(s[i]))
  {
    seq(|s|, i requires 0 <= i < |s| => LowerChar(s[i]))
  }

  // ---------------------------------------------------------------- decimal

  predicate IsDigit(c: char) { '0' <= c <= '9' }

  predicate AllDigits(s: string) {
    forall i :: 0 <= i < |s| ==> IsDigit(s[i])
  }

  function DigitChar(d: nat): (c: char)
    requires d < 10
    ensures IsDigit(c) && c as int - '0' as int == d
  {
    ('0' as int + d) as char
  }

  function DigitValue(c: char): (d: nat)
    requires IsDigit(c)
    ensures d < 10 && DigitChar(d) == c
  {
    c as int - '0' as int
  }

  /** `str(n)` for a natural number: decimal digits without leading zeros. */
  function NatToString(n: nat): (r: string)
    ensures r != [] && AllDigits(r)
    ensures r[0] == '0' ==> n == 0 && r == "0"
    decreases n
  {
    if n < 10 then [DigitChar(n)] else NatToString(n / 10) + [DigitChar(n % 10)]
  }

  /** `str(i)` for any integer: a minus sign before the digits of a negative number. */
  function IntToString(i: int): (r: string)
    ensures r != []
    ensures (r[0] == '-') <==> i < 0
    ensures i < 0 ==> r[1..] == NatToString(-i)
    ensures i >= 0 ==> r == NatToString(i)
  {
    if i < 0 then "-" + NatToString(-i) else NatToString(i)
  }

  /** The number a string of decimal digits denotes, most significant digit first. */
  function ParseDigits(s: string): nat
    requires AllDigits(s)
  {
    if s == [] then 0 else 10 * ParseDigits(s[..|s| - 1]) + DigitValue(s[|s| - 1])
  }

  /** Reading back what `NatToString` writes gives the number written. */
  lemma {:induction false} ParseNatToString(n: nat)
    ensures ParseDigits(NatToString(n)) == n
    decreases n
  {
    var r := NatToString(n);
    if n >= 10 {
      ParseNatToString(n / 10);
      assert r[..|r| - 1] == NatToString(n / 10);
    }
  }

  /** The length of the run of decimal digits at the head of `s`. */
  function DigitPrefixLength(s: string): (n: nat)
    ensures n <= |s| && AllDigits(s[..n])
    ensures n == |s| || !IsDigit(s[n])
  {
    if s == [] || !IsDigit(s[0]) then 0
    else
      var m := DigitPrefixLength(s[1..]);
      assert s[..m + 1] == [s[0]] + s[1..][..m];
      m + 1
  }

  lemma {:induction false} DigitPrefixOf(digits: string, rest: string)
    requires AllDigits(digits)
    requires rest == [] || !IsDigit(rest[0])
    ensures DigitPrefixLength(digits + rest) == |digits|
  {
    if digits != [] {
      assert (digits + rest)[1..] == digits[1..] + rest;
      DigitPrefixOf(digits[1..], rest);
    } else {
      assert digits + rest == rest;
    }
  }
}
