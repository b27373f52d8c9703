/** The text handling the tool borrows from Go's standard library: the line
    splitter of `bufio.Scanner` (`bufio.ScanLines`), `strings.Fields`,
    `strings.Join` with a single space, `strings.HasPrefix`,
    `strings.Contains`, and the `%d` verb of `fmt.Sscanf` storing into an `int`. */
module Text {
  import opened Wrappers

  // ---------------------------------------------------------------------
  // Prefixes and substrings
  // ---------------------------------------------------------------------

  /** `strings.HasPrefix(s, prefix)`: `s` starts with the characters of
      `prefix`, one by one. */
  function HasPrefix(s: string, prefix: string): (r: bool)
    ensures r <==> |prefix| <= |s| && forall j :: 0 <= j < |prefix| ==> s[j] == prefix[j]
  {
    |prefix| <= |s| && s[..|prefix|] == prefix
  }

  /** `sub` occurs in `s` starting at index `i`. */
  ghost predicate OccursAt(s: string, sub: string, i: nat) {
    i + |sub| <= |s| && s[i..i + |sub|] == sub
  }

  /** An occurrence in `s` is one at its start or one in its tail. */
  lemma OccursShift(s: string, sub: string)
    ensures (exists i: nat :: OccursAt(s, sub, i)) <==>
      HasPrefix(s, sub) || (s != [] && exists i: nat :: OccursAt(s[1..], sub, i))
  {
    if exists i: nat :: OccursAt(s, sub, i) {
      var i: nat :| OccursAt(s, sub, i);
      if i > 0 {
        assert s[1..][i - 1..i - 1 + |sub|] == s[i..i + |sub|];
        assert OccursAt(s[1..], sub, i - 1);
      } else {
        assert s[..|sub|] == s[i..i + |sub|];
      }
    }
    if HasPrefix(s, sub) {
      assert s[0..|sub|] == s[..|sub|];
      assert OccursAt(s, sub, 0);
    }
    if s != [] && exists i: nat :: OccursAt(s[1..], sub, i) {
      var i: nat :| OccursAt(s[1..], sub, i);
      assert s[1..][i..i + |sub|] == s[i + 1..i + 1 + |sub|];
      assert OccursAt(s, sub, i + 1);
    }
  }

  /** `strings.Contains(s, sub)`: `sub` occurs somewhere in `s`. */
  function Contains(s: string, sub: string): (r: bool)
    ensures r <==> exists i: nat :: OccursAt(s, sub, i)
    decreases |s|
  {
    OccursShift(s, sub);
    HasPrefix(s, sub) || (s != [] && Contains(s[1..], sub))
  }

  // ---------------------------------------------------------------------
  // bufio.ScanLines
  // ---------------------------------------------------------------------

  /** The index of the first newline of `s`, or `|s|` when it has none. */
  function NewlineIndex(s: string): (i: nat)
    ensures i <= |s|
    ensures i < |s| ==> s[i] == '\n'
    ensures forall j :: 0 <= j < i ==> s[j] != '\n'
  {
    if s == [] || s[0] == '\n' then 0 else 1 + NewlineIndex(s[1..])
  }

  /** A token loses one trailing carriage return. */
  function DropCR(s: string): string {
    if s != [] && s[|s| - 1] == '\r' then s[..|s| - 1] else s
  }

  /** The tokens `bufio.Scanner` yields with its default split function
      `ScanLines`: the text up to each newline, and the text after the
      last newline when it is not empty, each without a trailing '\r'.
      An empty input yields no token. */
  function SplitLines(s: string): (lines: seq<string>)
    ensures forall k :: 0 <= k < |lines| ==> '\n' !in lines[k]
    ensures lines == [] <==> s == []
    decreases |s|
  {
    if s == [] then []
    else
      var i := NewlineIndex(s);
      if i < |s| then [DropCR(s[..i])] + SplitLines(s[i + 1..])
      else [DropCR(s)]
  }

  /** The number of newline characters in `s`. */
  function Newlines(s: string): nat
    decreases |s|
  {
    if s == [] then 0 else (if s[0] == '\n' then 1 else 0) + Newlines(s[1..])
  }

  lemma {:induction false} NewlinesAppend(a: string, b: string)
    ensures Newlines(a + b) == Newlines(a) + Newlines(b)
    decreases |a|
  {
    if a != [] {
      assert (a + b)[1..] == a[1..] + b;
      NewlinesAppend(a[1..], b);
    } else {
      assert a + b == b;
    }
  }

  lemma {:induction false} NoNewlines(s: string)
    requires forall j :: 0 <= j < |s| ==> s[j] != '\n'
    ensures Newlines(s) == 0
    decreases |s|
  {
    if s != [] {
      NoNewlines(s[1..]);
    }
  }

  /** The number of lines a file holds, as the counting loop sees it: one
      per newline, plus one for a last line that has no newline. */
  function LineCount(s: string): nat {
    Newlines(s) + (if s != [] && s[|s| - 1] != '\n' then 1 else 0)
  }

  /** A newline that is the first of `s` accounts for one newline of `s`;
      the others are after it. */
  lemma FirstNewline(s: string, i: nat)
    requires i < |s| && s[i] == '\n'
    requires forall j :: 0 <= j < i ==> s[j] != '\n'
    ensures Newlines(s) == 1 + Newlines(s[i + 1..])
  {
    var rest := s[i + 1..];
    NoNewlines(s[..i]);
    assert s == s[..i] + ([s[i]] + rest);
    NewlinesAppend(s[..i], [s[i]] + rest);
    assert ([s[i]] + rest)[1..] == rest;
  }

  /** `bufio.ScanLines` yields exactly `LineCount(s)` tokens; an empty
      text yields none. */
  lemma {:induction false} SplitLinesCount(s: string)
    ensures |SplitLines(s)| == LineCount(s)
    ensures s == [] ==> SplitLines(s) == []
    decreases |s|
  {
    if s != [] {
      var i := NewlineIndex(s);
      if i < |s| {
        var rest := s[i + 1..];
        FirstNewline(s, i);
        SplitLinesCount(rest);
        if rest != [] {
          assert rest[|rest| - 1] == s[|s| - 1];
        }
      } else {
        NoNewlines(s);
      }
    }
  }

  /** A line a scanner token can hold unchanged: no newline, and no
      trailing carriage return for `ScanLines` to drop. */
  predicate IsLine(l: string) {
    (forall j :: 0 <= j < |l| ==> l[j] != '\n') && (l == [] || l[|l| - 1] != '\r')
  }

  /** The lines `ls`, each followed by a newline, then the unterminated
      text `last`. */
  function JoinLines(ls: seq<string>, last: string): string
    decreases |ls|
  {
    if ls == [] then last else ls[0] + "\n" + JoinLines(ls[1..], last)
  }

  lemma {:induction false} NewlineIndexOf(l: string, rest: string)
    requires forall j :: 0 <= j < |l| ==> l[j] != '\n'
    requires rest == [] || rest[0] == '\n'
    ensures NewlineIndex(l + rest) == |l|
    decreases |l|
  {
    if l != [] {
      assert (l + rest)[1..] == l[1..] + rest;
      NewlineIndexOf(l[1..], rest);
    } else {
      assert l + rest == rest;
    }
  }

  /** The first token is the text up to the first newline. */
  lemma SplitLinesFirst(l: string, rest: string)
    requires forall j :: 0 <= j < |l| ==> l[j] != '\n'
    ensures SplitLines(l + "\n" + rest) == [DropCR(l)] + SplitLines(rest)
  {
    var s := l + ("\n" + rest);
    assert l + "\n" + rest == s;
    NewlineIndexOf(l, "\n" + rest);
    assert s[..|l|] == l;
    assert s[|l| + 1..] == rest;
  }

  /** `ScanLines` gives back the lines of a text: each newline-terminated
      line, then the unterminated last line when it is not empty. */
  lemma {:induction false} SplitLinesOfJoin(ls: seq<string>, last: string)
    requires forall k :: 0 <= k < |ls| ==> IsLine(ls[k])
    requires IsLine(last)
    ensures SplitLines(JoinLines(ls, last)) == if last == [] then ls else ls + [last]
    decreases |ls|
  {
    if ls == [] {
      SplitLinesLast(last);
    } else {
      var l, rest := ls[0], JoinLines(ls[1..], last);
      assert IsLine(l);
      assert DropCR(l) == l;
      SplitLinesFirst(l, rest);
      SplitLinesOfJoin(ls[1..], last);
      assert ls == [l] + ls[1..];
    }
  }

  /** A text without a newline is one token, unless it is empty. */
  lemma SplitLinesLast(last: string)
    requires IsLine(last)
    ensures SplitLines(last) == if last == [] then [] else [last]
  {
    if last != [] {
      NewlineIndexOf(last, []);
      assert last + [] == last;
    }
  }

  // ---------------------------------------------------------------------
  // strings.Fields and strings.Join
  // ---------------------------------------------------------------------

  /** ASCII white space: ' ', '\t', '\n', '\v', '\f', '\r'. */
  predicate IsSpace(c: char) {
    c == ' ' || '\t' <= c <= '\r'
  }

  /** A field: a non-empty run of non-space characters. */
  predicate IsWord(w: string) {
    w != [] && forall j :: 0 <= j < |w| ==> !IsSpace(w[j])
  }

  /** The length of the run of non-space characters that starts `s`. */
  function WordLength(s: string): (k: nat)
    ensures k <= |s|
    ensures forall j :: 0 <= j < k ==> !IsSpace(s[j])
    ensures k < |s| ==> IsSpace(s[k])
  {
    if s == [] || IsSpace(s[0]) then 0 else 1 + WordLength(s[1..])
  }

  /** `strings.Fields`: the maximal runs of non-space characters, in order. */
  function Fields(s: string): (fields: seq<string>)
    ensures forall k :: 0 <= k < |fields| ==> IsWord(fields[k])
    decreases |s|
  {
    if s == [] then []
    else if IsSpace(s[0]) then Fields(s[1..])
    else
      var k := WordLength(s);
      [s[..k]] + Fields(s[k..])
  }

  /** The total length of the words. */
  function TotalLength(words: seq<string>): nat
    decreases |words|
  {
    if words == [] then 0 else |words[0]| + TotalLength(words[1..])
  }

  /** `strings.Join(words, " ")`: the words with one space between each
      two, so one character more per word after the first. */
  function JoinSpace(words: seq<string>): (r: string)
    ensures words == [] ==> r == []
    ensures words != [] ==> |r| == TotalLength(words) + |words| - 1
    decreases |words|
  {
    if words == [] then []
    else if |words| == 1 then words[0]
    else words[0] + " " + JoinSpace(words[1..])
  }

  lemma {:induction false} WordLengthOfWord(w: string, rest: string)
    requires IsWord(w)
    requires rest == [] || IsSpace(rest[0])
    ensures WordLength(w + rest) == |w|
    decreases |w|
  {
    var s := w + rest;
    if |w| > 1 {
      assert s[1..] == w[1..] + rest;
      WordLengthOfWord(w[1..], rest);
    } else {
      assert s[1..] == rest;
    }
  }

  lemma {:induction false} FieldsSkipsSpace(s: string)
    requires s != [] && IsSpace(s[0])
    ensures Fields(s) == Fields(s[1..])
  {
  }

  /** Splitting a single-space join of words gives the words back. */
  lemma {:induction false} FieldsOfJoin(words: seq<string>)
    requires forall k :: 0 <= k < |words| ==> IsWord(words[k])
    ensures Fields(JoinSpace(words)) == words
    decreases |words|
  {
    if words == [] {
    } else if |words| == 1 {
      FieldsOfWordThen(words[0], []);
      assert words[0] + [] == words[0];
    } else {
      var w, tail := words[0], JoinSpace(words[1..]);
      assert JoinSpace(words) == w + (" " + tail);
      FieldsOfWordThen(w, " " + tail);
      FieldsSkipsSpace(" " + tail);
      assert (" " + tail)[1..] == tail;
      FieldsOfJoin(words[1..]);
      assert [w] + words[1..] == words;
    }
  }

  /** Every character of `s` is white space. */
  predicate IsSpaces(s: string) {
    forall j :: 0 <= j < |s| ==> IsSpace(s[j])
  }

  /** The words, each after its gap of white space, then the trailing white
      space `trail`. */
  function Spaced(words: seq<string>, gaps: seq<string>, trail: string): string
    requires |gaps| == |words|
    decreases |words|
  {
    if words == [] then trail else gaps[0] + words[0] + Spaced(words[1..], gaps[1..], trail)
  }

  lemma {:induction false} FieldsAfterSpaces(sp: string, t: string)
    requires IsSpaces(sp)
    ensures Fields(sp + t) == Fields(t)
    decreases |sp|
  {
    if sp != [] {
      FieldsSkipsSpace(sp + t);
      assert (sp + t)[1..] == sp[1..] + t;
      FieldsAfterSpaces(sp[1..], t);
    } else {
      assert sp + t == t;
    }
  }

  lemma FieldsOfWordThen(w: string, t: string)
    requires IsWord(w)
    requires t == [] || IsSpace(t[0])
    ensures Fields(w + t) == [w] + Fields(t)
  {
    WordLengthOfWord(w, t);
    var s := w + t;
    assert s[..|w|] == w;
    assert s[|w|..] == t;
  }

  /** Words separated by non-empty runs of any white space, with optional
      white space before the first and after the last, split back into the
      words. */
  lemma {:induction false} FieldsOfSpaced(words: seq<string>, gaps: seq<string>, trail: string)
    requires |gaps| == |words|
    requires forall k :: 0 <= k < |words| ==> IsWord(words[k])
    requires forall k :: 0 <= k < |gaps| ==> IsSpaces(gaps[k])
    requires forall k :: 0 < k < |gaps| ==> gaps[k] != []
    requires IsSpaces(trail)
    ensures Fields(Spaced(words, gaps, trail)) == words
    decreases |words|
  {
    if words == [] {
      FieldsAfterSpaces(trail, []);
      assert trail + [] == trail;
    } else {
      var rest := Spaced(words[1..], gaps[1..], trail);
      assert Spaced(words, gaps, trail) == gaps[0] + (words[0] + rest);
      FieldsAfterSpaces(gaps[0], words[0] + rest);
      if |words| > 1 {
        assert rest == gaps[1..][0] + words[1..][0] + Spaced(words[1..][1..], gaps[1..][1..], trail);
        assert rest[0] == gaps[1][0];
      }
      FieldsOfWordThen(words[0], rest);
      FieldsOfSpaced(words[1..], gaps[1..], trail);
      assert words == [words[0]] + words[1..];
    }
  }

  /** A single-space join of fields neither starts nor ends with white
      space, and it is empty only when there is nothing to join. */
  lemma {:induction false} JoinSpaceTrimmed(words: seq<string>)
    requires forall k :: 0 <= k < |words| ==> IsWord(words[k])
    ensures var j := JoinSpace(words);
      (j == [] <==> words == []) &&
      (j != [] ==> !IsSpace(j[0]) && !IsSpace(j[|j| - 1]))
    decreases |words|
  {
    if |words| > 1 {
      JoinSpaceTrimmed(words[1..]);
      var tail := JoinSpace(words[1..]);
      var j := words[0] + " " + tail;
      assert j[0] == words[0][0];
      assert j[|j| - 1] == tail[|tail| - 1];
    } else if |words| == 1 {
      assert words[0][0] == words[0][0];
    }
  }

  // ---------------------------------------------------------------------
  // fmt.Sscanf(field, "%d", &n) with n of Go type int (64 bits)
  // ---------------------------------------------------------------------

  const Int64Min: int := -0x8000_0000_0000_0000
  const Int64Max: int := 0x7fff_ffff_ffff_ffff

  predicate IsDigit(c: char) {
    '0' <= c <= '9'
  }

  /** The length of the run of decimal digits that starts `s`. */
  function DigitRun(s: string): (k: nat)
    ensures k <= |s|
    ensures forall j :: 0 <= j < k ==> IsDigit(s[j])
    ensures k < |s| ==> !IsDigit(s[k])
  {
    if s == [] || !IsDigit(s[0]) then 0 else 1 + DigitRun(s[1..])
  }

  /** The value of a string of decimal digits. */
  function DecimalValue(digits: string): nat
    requires forall j :: 0 <= j < |digits| ==> IsDigit(digits[j])
    decreases |digits|
  {
    if digits == [] then 0
    else 10 * DecimalValue(digits[..|digits| - 1]) + DigitValue(digits[|digits| - 1])
  }

  function DigitValue(c: char): nat
    requires IsDigit(c)
  {
    c as int - '0' as int
  }

  /** What `fmt.Sscanf(field, "%d", &n)` stores into `n`: an optional sign
      followed by at least one decimal digit, read as far as the digits go
      (what follows is left unread), provided the value fits the 64-bit
      `int`; `None` when it stores nothing (no digit, or out of range). */
  function ScanDecimal(field: string): (r: Option<int>)
    ensures r.Some? ==> Int64Min <= r.value <= Int64Max
    ensures var signed := field != [] && (field[0] == '+' || field[0] == '-');
      r.Some? ==> (if signed then |field| > 1 && IsDigit(field[1]) else field != [] && IsDigit(field[0]))
  {
    var signLength := if field != [] && (field[0] == '+' || field[0] == '-') then 1 else 0;
    var unsigned := field[signLength..];
    var k := DigitRun(unsigned);
    if k == 0 then None
    else
      var magnitude: int := DecimalValue(unsigned[..k]);
      var value: int := if signLength == 1 && field[0] == '-' then -magnitude else magnitude;
      if Int64Min <= value <= Int64Max then Some(value) else None
  }

  /** A field made of an optional sign, digits, and text that does not go
      on with a digit scans as the signed value of the digits when that
      value fits the 64-bit `int`, and stores nothing when it does not (the
      range error of Go's integer parsing). */
  lemma ScanDecimalDigits(sign: string, digits: string, junk: string)
    requires sign == "" || sign == "+" || sign == "-"
    requires digits != [] && forall j :: 0 <= j < |digits| ==> IsDigit(digits[j])
    requires junk == [] || !IsDigit(junk[0])
    ensures var v: int := if sign == "-" then -(DecimalValue(digits) as int) else DecimalValue(digits);
      ScanDecimal(sign + (digits + junk)) == if Int64Min <= v <= Int64Max then Some(v) else None
  {
    if sign == "" {
      assert sign + (digits + junk) == digits + junk;
      ScanDecimalUnsigned(digits, junk);
    } else {
      var c := SignChar(sign);
      ScanDecimalSigned(c, digits, junk);
    }
  }

  lemma ScanDecimalUnsigned(digits: string, junk: string)
    requires digits != [] && forall j :: 0 <= j < |digits| ==> IsDigit(digits[j])
    requires junk == [] || !IsDigit(junk[0])
    ensures var v: int := DecimalValue(digits);
      ScanDecimal(digits + junk) == if Int64Min <= v <= Int64Max then Some(v) else None
  {
    DigitRunOf(digits, junk);
    ScanDecimalAfterSign(digits + junk, 0, digits, junk);
  }

  lemma ScanDecimalSigned(c: char, digits: string, junk: string)
    requires c == '+' || c == '-'
    requires digits != [] && forall j :: 0 <= j < |digits| ==> IsDigit(digits[j])
    requires junk == [] || !IsDigit(junk[0])
    ensures var v: int := if c == '-' then -(DecimalValue(digits) as int) else DecimalValue(digits);
      ScanDecimal([c] + (digits + junk)) == if Int64Min <= v <= Int64Max then Some(v) else None
  {
    DigitRunOf(digits, junk);
    var field := [c] + (digits + junk);
    assert field[1..] == digits + junk;
    ScanDecimalAfterSign(field, 1, digits, junk);
  }

  /** The character of a one-character sign. */
  lemma SignChar(sign: string) returns (c: char)
    requires sign == "+" || sign == "-"
    ensures sign == [c] && (c == '+' || c == '-') && (sign == "-" <==> c == '-')
  {
    c := sign[0];
  }

  /** `ScanDecimal` of a field whose sign, if any, takes `signLength`
      characters and is followed by the digits and then a non-digit. */
  lemma ScanDecimalAfterSign(field: string, signLength: nat, digits: string, junk: string)
    requires signLength == if field != [] && (field[0] == '+' || field[0] == '-') then 1 else 0
    requires signLength <= |field| && field[signLength..] == digits + junk
    requires digits != [] && forall j :: 0 <= j < |digits| ==> IsDigit(digits[j])
    requires DigitRun(digits + junk) == |digits|
    ensures var v: int := if signLength == 1 && field[0] == '-' then -(DecimalValue(digits) as int) else DecimalValue(digits);
      ScanDecimal(field) == if Int64Min <= v <= Int64Max then Some(v) else None
  {
    assert (digits + junk)[..|digits|] == digits;
  }

  lemma {:induction false} DigitRunOf(digits: string, junk: string)
    requires forall j :: 0 <= j < |digits| ==> IsDigit(digits[j])
    requires junk == [] || !IsDigit(junk[0])
    ensures DigitRun(digits + junk) == |digits|
    decreases |digits|
  {
    if digits != [] {
      assert (digits + junk)[1..] == digits[1..] + junk;
      DigitRunOf(digits[1..], junk);
    } else {
      assert digits + junk == junk;
    }
  }
}
