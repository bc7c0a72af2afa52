/**
 * String helpers shared by every stage of the pipeline: the character classes the
 * scripts' regular expressions and `str` methods use, whitespace stripping and
 * collapsing, case mapping, substring search, `split`/`join`, `replace`, decimal
 * rendering and parsing of integers, and Python's code-point string order.
 */
module Text {
  import opened Wrappers
  import Collections

  // ---------------------------------------------------------------------------
  // Character classes
  // ---------------------------------------------------------------------------

  /** The characters for which Python's `str.isspace()` holds; `strip()` and `\s` use it. */
  predicate IsSpace(c: char) {
    || c == ' ' || c == '\t' || c == '\n' || c == '\r' || c == '\U{000B}' || c == '\U{000C}'
    || ('\U{001C}' <= c <= '\U{001F}')
    || c == '\U{0085}' || c == '\U{00A0}' || c == '\U{1680}'
    || ('\U{2000}' <= c <= '\U{200A}')
    || c == '\U{2028}' || c == '\U{2029}' || c == '\U{202F}' || c == '\U{205F}' || c == '\U{3000}'
  }

  predicate IsDigit(c: char) { '0' <= c <= '9' }
  predicate IsUpper(c: char) { 'A' <= c <= 'Z' }
  predicate IsLower(c: char) { 'a' <= c <= 'z' }
  predicate IsLetter(c: char) { IsUpper(c) || IsLower(c) }

  /** The regex class `\w`, restricted to ASCII. */
  predicate IsWordChar(c: char) { IsLetter(c) || IsDigit(c) || c == '_' }

  predicate AllDigits(s: string) { forall i :: 0 <= i < |s| ==> IsDigit(s[i]) }

  /** The end of the longest run of characters satisfying `p` that starts at `i`: a greedy `[...]*`. */
  function RunEnd(s: string, i: nat, p: char -> bool): (j: nat)
    requires i <= |s|
    ensures i <= j <= |s|
    ensures forall k :: i <= k < j ==> p(s[k])
    ensures j < |s| ==> !p(s[j])
    decreases |s| - i
  {
    if i < |s| && p(s[i]) then RunEnd(s, i + 1, p) else i
  }

  lemma DigitNotSpace(c: char)
    requires IsDigit(c)
    ensures !IsSpace(c)
  {
  }

  /** A run of `p` from `i` that stops at `e` ends at `e`. */
  lemma RunEndIs(s: string, i: nat, p: char -> bool, e: nat)
    requires i <= e <= |s| && (forall k :: i <= k < e ==> p(s[k])) && (e < |s| ==> !p(s[e]))
    ensures RunEnd(s, i, p) == e
  {
  }

  predicate AllWordChars(s: string) { forall i :: 0 <= i < |s| ==> IsWordChar(s[i]) }

  function ToLowerChar(c: char): char {
    if IsUpper(c) then (c as int + 32) as char else c
  }

  function ToUpperChar(c: char): char {
    if IsLower(c) then (c as int - 32) as char else c
  }

  /** Python's `str.lower()` on ASCII letters. */
  function ToLower(s: string): (r: string)
    ensures |r| == |s|
    ensures forall i :: 0 <= i < |s| ==> r[i] == ToLowerChar(s[i])
  {
    seq(|s|, i requires 0 <= i < |s| => ToLowerChar(s[i]))
  }

  /**
   * Python's `str.title()` on ASCII: a letter that follows a letter is lower-cased,
   * every other letter is upper-cased, and other characters are kept.
   */
  function Title(s: string): (r: string)
    ensures |r| == |s|
  {
    seq(|s|, i requires 0 <= i < |s| =>
      if i > 0 && IsLetter(s[i - 1]) then ToLowerChar(s[i]) else ToUpperChar(s[i]))
  }

  /** Title-casing ignores the case the input was written in: "high", "HIGH" and "High" agree. */
  lemma TitleIgnoresCase(s: string)
    ensures Title(ToLower(s)) == Title(s)
  {
    var l := ToLower(s);
    var a, b := Title(l), Title(s);
    forall i | 0 <= i < |s| ensures a[i] == b[i] {
      LowerCharCase(s[i]);
      if i > 0 {
        LowerCharCase(s[i - 1]);
      }
    }
  }

  /** Lower-casing a character keeps it a letter or not, and changes neither of its cased forms. */
  lemma LowerCharCase(c: char)
    ensures IsLetter(ToLowerChar(c)) == IsLetter(c)
    ensures ToLowerChar(ToLowerChar(c)) == ToLowerChar(c)
    ensures ToUpperChar(ToLowerChar(c)) == ToUpperChar(c)
  {
  }

  /** A title-cased string is its own title case. */
  lemma TitleIdempotent(s: string)
    ensures Title(Title(s)) == Title(s)
  {
    var t := Title(s);
    var a := Title(t);
    forall i | 0 <= i < |s| ensures a[i] == t[i] {
      if i > 0 {
        assert IsLetter(t[i - 1]) == IsLetter(s[i - 1]);
      }
    }
  }

  // ---------------------------------------------------------------------------
  // Whitespace: strip and collapse
  // ---------------------------------------------------------------------------

  /** The non-whitespace characters of `s`, in order. */
  function Visible(s: string): string {
    if s == [] then [] else (if IsSpace(s[0]) then [] else [s[0]]) + Visible(s[1..])
  }

  lemma VisibleAppend(a: string, b: string)
    ensures Visible(a + b) == Visible(a) + Visible(b)
  {
    if a != [] {
      assert (a + b)[0] == a[0];
      assert (a + b)[1..] == a[1..] + b;
      VisibleAppend(a[1..], b);
      var h := if IsSpace(a[0]) then [] else [a[0]];
      assert Visible(a + b) == h + Visible(a[1..] + b);
      assert Visible(a) == h + Visible(a[1..]);
    } else {
      assert a + b == b;
    }
  }

  lemma VisibleOfSpaces(s: string)
    requires forall i :: 0 <= i < |s| ==> IsSpace(s[i])
    ensures Visible(s) == []
  {
    if s != [] { VisibleOfSpaces(s[1..]); }
  }

  /** `lstrip()`: drops leading whitespace. */
  function StripLeft(s: string): (r: string)
    ensures |r| <= |s| && r == s[|s| - |r|..]
    ensures forall k :: 0 <= k < |s| - |r| ==> IsSpace(s[k])
    ensures |r| > 0 ==> !IsSpace(r[0])
    decreases |s|
  {
    if |s| > 0 && IsSpace(s[0]) then StripLeft(s[1..]) else s
  }

  /** `rstrip()`: drops trailing whitespace. */
  function StripRight(s: string): (r: string)
    ensures |r| <= |s| && r == s[..|r|]
    ensures forall k :: |r| <= k < |s| ==> IsSpace(s[k])
    ensures |r| > 0 ==> !IsSpace(r[|r| - 1])
    decreases |s|
  {
    if |s| > 0 && IsSpace(s[|s| - 1]) then StripRight(s[..|s| - 1]) else s
  }

  /** `strip()`: drops whitespace at both ends. */
  function Strip(s: string): (r: string)
    ensures |r| <= |s|
    ensures |r| > 0 ==> !IsSpace(r[0]) && !IsSpace(r[|r| - 1])
  {
    StripRight(StripLeft(s))
  }

  lemma {:induction false} StripLeftVisible(s: string)
    ensures Visible(StripLeft(s)) == Visible(s)
    decreases |s|
  {
    if |s| > 0 && IsSpace(s[0]) { StripLeftVisible(s[1..]); }
  }

  lemma {:induction false} StripRightVisible(s: string)
    ensures Visible(StripRight(s)) == Visible(s)
    decreases |s|
  {
    if |s| > 0 && IsSpace(s[|s| - 1]) {
      var init := s[..|s| - 1];
      StripRightVisible(init);
      assert s == init + [s[|s| - 1]];
      VisibleAppend(init, [s[|s| - 1]]);
      assert Visible([s[|s| - 1]]) == [];
    }
  }

  /** Stripping removes only whitespace: the visible text is the same. */
  lemma StripVisible(s: string)
    ensures Visible(Strip(s)) == Visible(s)
  {
    StripLeftVisible(s);
    StripRightVisible(StripLeft(s));
  }

  /** No whitespace other than single blanks. */
  predicate Collapsed(r: string) {
    && (forall i :: 0 <= i < |r| && IsSpace(r[i]) ==> r[i] == ' ')
    && (forall i :: 0 <= i < |r| - 1 ==> !(r[i] == ' ' && r[i + 1] == ' '))
  }

  /** `re.sub(r'\s+', ' ', s)`: every maximal run of whitespace becomes one blank. */
  function Collapse(s: string): (r: string)
    ensures |r| <= |s|
    decreases |s|
  {
    if s == [] then []
    else if IsSpace(s[0]) then [' '] + Collapse(StripLeft(s[1..]))
    else [s[0]] + Collapse(s[1..])
  }

  /** Collapsing keeps whether the text begins and ends with whitespace. */
  lemma {:induction false} CollapseEnds(s: string)
    ensures |s| > 0 ==> |Collapse(s)| > 0 && (IsSpace(s[0]) <==> IsSpace(Collapse(s)[0]))
    ensures |s| > 0 ==> (IsSpace(s[|s| - 1]) <==> IsSpace(Collapse(s)[|Collapse(s)| - 1]))
    decreases |s|
  {
    if s != [] {
      var r := Collapse(s);
      if IsSpace(s[0]) {
        var t := StripLeft(s[1..]);
        assert r == [' '] + Collapse(t);
        CollapseEnds(t);
        if t != [] {
          assert t[|t| - 1] == s[|s| - 1];
        } else {
          assert |s| == 1 || IsSpace(s[1..][|s| - 2]);
        }
      } else {
        assert r == [s[0]] + Collapse(s[1..]);
        CollapseEnds(s[1..]);
      }
    }
  }

  /** The result of collapsing has only single blanks as whitespace. */
  lemma {:induction false} CollapseCollapsed(s: string)
    ensures Collapsed(Collapse(s))
    decreases |s|
  {
    if s != [] {
      var r := Collapse(s);
      if IsSpace(s[0]) {
        var t := StripLeft(s[1..]);
        var c := Collapse(t);
        assert r == [' '] + c;
        CollapseCollapsed(t);
        CollapseEnds(t);
        forall i | 0 <= i < |r| - 1 ensures !(r[i] == ' ' && r[i + 1] == ' ') {
          if i > 0 { assert r[i] == c[i - 1] && r[i + 1] == c[i]; }
        }
        forall i | 0 <= i < |r| && IsSpace(r[i]) ensures r[i] == ' ' {
          if i > 0 { assert r[i] == c[i - 1]; }
        }
      } else {
        var c := Collapse(s[1..]);
        assert r == [s[0]] + c;
        CollapseCollapsed(s[1..]);
        CollapseEnds(s[1..]);
        forall i | 0 <= i < |r| - 1 ensures !(r[i] == ' ' && r[i + 1] == ' ') {
          if i > 0 { assert r[i] == c[i - 1] && r[i + 1] == c[i]; }
        }
        forall i | 0 <= i < |r| && IsSpace(r[i]) ensures r[i] == ' ' {
          if i > 0 { assert r[i] == c[i - 1]; }
        }
      }
    }
  }

  /** Collapsing changes only whitespace: the visible text is the same. */
  lemma {:induction false} CollapseVisible(s: string)
    ensures Visible(Collapse(s)) == Visible(s)
    decreases |s|
  {
    if s != [] {
      var r := Collapse(s);
      if IsSpace(s[0]) {
        var t := StripLeft(s[1..]);
        var c := Collapse(t);
        assert r == [' '] + c;
        CollapseVisible(t);
        var dropped := s[1..][..|s| - 1 - |t|];
        assert s[1..] == dropped + t;
        VisibleAppend(dropped, t);
        VisibleOfSpaces(dropped);
        assert r[1..] == c;
        assert Visible(r) == Visible(c);
        assert Visible(s) == Visible(s[1..]);
      } else {
        var c := Collapse(s[1..]);
        assert r == [s[0]] + c;
        assert r[1..] == c;
        CollapseVisible(s[1..]);
      }
    }
  }

  /** The display form of a description: stripped, collapsed, cut to 200 characters plus "...". */
  function Truncate(s: string): (r: string)
    ensures |r| <= 203
    ensures |s| <= 200 ==> r == s
    ensures |s| > 200 ==> r == s[..200] + "..."
  {
    if |s| > 200 then s[..200] + "..." else s
  }

  // ---------------------------------------------------------------------------
  // Substrings
  // ---------------------------------------------------------------------------

  predicate StartsWith(s: string, prefix: string) {
    |prefix| <= |s| && s[..|prefix|] == prefix
  }

  predicate EndsWith(s: string, suffix: string) {
    |suffix| <= |s| && s[|s| - |suffix|..] == suffix
  }

  predicate OccursAt(s: string, sub: string, i: int) {
    0 <= i && i + |sub| <= |s| && s[i..i + |sub|] == sub
  }

  /** The first position at or after `from` where `sub` occurs. */
  function IndexFrom(s: string, sub: string, from: nat): (r: Option<nat>)
    ensures r.Some? ==> from <= r.value && OccursAt(s, sub, r.value)
    ensures r.Some? ==> forall j :: from <= j < r.value ==> !OccursAt(s, sub, j)
    ensures r.None? ==> forall j :: from <= j ==> !OccursAt(s, sub, j)
    decreases |s| - from
  {
    if from + |sub| > |s| then None
    else if s[from..from + |sub|] == sub then Some(from)
    else IndexFrom(s, sub, from + 1)
  }

  /** Python's `s.find(sub)`, with `None` for -1. */
  function IndexOf(s: string, sub: string): (r: Option<nat>)
    ensures r.Some? ==> OccursAt(s, sub, r.value) && forall j :: 0 <= j < r.value ==> !OccursAt(s, sub, j)
    ensures r.None? ==> forall j :: !OccursAt(s, sub, j)
  {
    IndexFrom(s, sub, 0)
  }

  /** Python's `sub in s`. */
  predicate Contains(s: string, sub: string) {
    IndexOf(s, sub).Some?
  }

  lemma ContainsAt(s: string, sub: string, i: int)
    requires OccursAt(s, sub, i)
    ensures Contains(s, sub)
  {
  }

  lemma OccursInPrefix(s: string, sub: string, n: nat, j: int)
    requires n <= |s| && OccursAt(s[..n], sub, j)
    ensures OccursAt(s, sub, j)
  {
    assert s[..n][j..j + |sub|] == s[j..j + |sub|];
  }

  lemma OccursInSuffix(s: string, sub: string, n: nat, j: int)
    requires n <= |s| && OccursAt(s[n..], sub, j)
    ensures OccursAt(s, sub, j + n)
  {
    assert s[n..][j..j + |sub|] == s[j + n..j + n + |sub|];
  }

  // ---------------------------------------------------------------------------
  // split and join
  // ---------------------------------------------------------------------------

  /** `sep.join(parts)`. */
  function Join(parts: seq<string>, sep: string): string
    decreases |parts|
  {
    if |parts| == 0 then ""
    else if |parts| == 1 then parts[0]
    else parts[0] + sep + Join(parts[1..], sep)
  }

  lemma JoinCons(p: string, rest: seq<string>, sep: string)
    requires |rest| > 0
    ensures Join([p] + rest, sep) == p + sep + Join(rest, sep)
  {
    assert ([p] + rest)[1..] == rest;
  }

  /** Every character of a joined string comes from a part or from the separator. */
  lemma JoinChars(parts: seq<string>, sep: string, c: char)
    requires c in Join(parts, sep)
    ensures c in sep || exists i :: 0 <= i < |parts| && c in parts[i]
    decreases |parts|
  {
    if |parts| > 1 {
      var t := Join(parts[1..], sep);
      assert Join(parts, sep) == parts[0] + sep + t;
      if c !in parts[0] && c !in sep {
        JoinChars(parts[1..], sep, c);
        var i :| 0 <= i < |parts[1..]| && c in parts[1..][i];
        assert c in parts[i + 1];
      }
    }
  }

  /** Python's `s.split(sep)` for a non-empty separator: cut at each occurrence, left to right. */
  function Split(s: string, sep: string): (parts: seq<string>)
    requires |sep| > 0
    ensures |parts| >= 1
    decreases |s|
  {
    match IndexOf(s, sep)
    case None => [s]
    case Some(i) => [s[..i]] + Split(s[i + |sep|..], sep)
  }

  /** Joining the parts with the separator gives back the input. */
  lemma {:induction false} SplitJoin(s: string, sep: string)
    requires |sep| > 0
    ensures Join(Split(s, sep), sep) == s
    decreases |s|
  {
    match IndexOf(s, sep)
    case None =>
      assert Split(s, sep) == [s];
    case Some(i) =>
      var tail := s[i + |sep|..];
      var rest := Split(tail, sep);
      assert Split(s, sep) == [s[..i]] + rest;
      SplitJoin(tail, sep);
      JoinCons(s[..i], rest, sep);
      assert s == s[..i] + sep + tail;
  }

  /** No part of a split contains the separator. */
  lemma {:induction false} SplitPartsFree(s: string, sep: string)
    requires |sep| > 0
    ensures forall i :: 0 <= i < |Split(s, sep)| ==> !Contains(Split(s, sep)[i], sep)
    decreases |s|
  {
    if IndexOf(s, sep).Some? {
      var i := IndexOf(s, sep).value;
      var head := s[..i];
      var rest := Split(s[i + |sep|..], sep);
      SplitPartsFree(s[i + |sep|..], sep);
      assert !Contains(head, sep) by {
        if Contains(head, sep) {
          var j := IndexOf(head, sep).value;
          OccursInPrefix(s, sep, i, j);
        }
      }
      var parts := [head] + rest;
      assert forall k :: 1 <= k < |parts| ==> parts[k] == rest[k - 1];
    }
  }

  /** Splitting a string without the separator gives the string itself. */
  lemma SplitNoSep(s: string, sep: string)
    requires |sep| > 0 && !Contains(s, sep)
    ensures Split(s, sep) == [s]
  {
  }

  /** Splitting at a separator that occurs first at position `i`. */
  lemma SplitAt(s: string, sep: string, i: nat)
    requires |sep| > 0 && IndexOf(s, sep) == Some(i)
    ensures Split(s, sep) == [s[..i]] + Split(s[i + |sep|..], sep)
  {
  }

  /** `head + sep + tail` splits at the separator after `head` when `head` cannot hold a match. */
  lemma SplitCons(head: string, sep: string, tail: string)
    requires |sep| == 1 && sep[0] !in head
    ensures Split(head + sep + tail, sep) == [head] + Split(tail, sep)
  {
    var s := head + sep + tail;
    assert OccursAt(s, sep, |head|) by { assert s[|head|..|head| + 1] == sep; }
    forall j | 0 <= j < |head| ensures !OccursAt(s, sep, j) {
      assert s[j] == head[j];
    }
    var i := IndexOf(s, sep).value;
    assert i == |head|;
    assert s[..i] == head;
    assert s[i + |sep|..] == tail;
  }

  /** A string without the character `c` does not contain the one-character string `[c]`. */
  lemma NotContainsChar(s: string, c: char)
    requires c !in s
    ensures !Contains(s, [c])
  {
    forall j: int ensures !OccursAt(s, [c], j) {
      if 0 <= j && j + 1 <= |s| {
        assert s[j..j + 1][0] == s[j];
      }
    }
  }

  /** In `head + sep + tail`, the first separator is at or before the one after `head`. */
  lemma FirstSeparator(head: string, sep: string, tail: string) returns (i: nat)
    requires |sep| == 1
    ensures IndexOf(head + sep + tail, sep) == Some(i) && i <= |head|
    ensures i < |head| ==> (head + sep + tail)[i + 1..] == head[i + 1..] + sep + tail
    ensures i == |head| ==> (head + sep + tail)[i + 1..] == tail
  {
    var s := head + sep + tail;
    assert OccursAt(s, sep, |head|) by { assert s[|head|..|head| + 1] == sep; }
    i := IndexOf(s, sep).value;
  }

  /** A one-character separator after which no further separator occurs: the last part is `tail`. */
  lemma {:induction false} SplitLastPart(head: string, sep: string, tail: string)
    requires |sep| == 1 && sep[0] !in tail
    ensures |Split(head + sep + tail, sep)| >= 2
    ensures Split(head + sep + tail, sep)[|Split(head + sep + tail, sep)| - 1] == tail
    decreases |head|
  {
    var s := head + sep + tail;
    var i := FirstSeparator(head, sep, tail);
    SplitAt(s, sep, i);
    var rest := Split(s[i + 1..], sep);
    assert Split(s, sep) == [s[..i]] + rest;
    if i == |head| {
      assert sep == [sep[0]];
      NotContainsChar(tail, sep[0]);
      SplitNoSep(tail, sep);
      assert rest == [tail];
    } else {
      SplitLastPart(head[i + 1..], sep, tail);
      assert rest[|rest| - 1] == tail;
    }
  }

  // ---------------------------------------------------------------------------
  // replace
  // ---------------------------------------------------------------------------

  /** Python's `s.replace(c, repl)` for a one-character pattern. */
  function ReplaceChar(s: string, c: char, repl: string): (r: string)
    ensures c !in repl ==> c !in r
    decreases |s|
  {
    if s == [] then [] else (if s[0] == c then repl else [s[0]]) + ReplaceChar(s[1..], c, repl)
  }

  lemma ReplaceCharAppend(a: string, b: string, c: char, repl: string)
    ensures ReplaceChar(a + b, c, repl) == ReplaceChar(a, c, repl) + ReplaceChar(b, c, repl)
  {
    if a != [] {
      assert (a + b)[0] == a[0];
      assert (a + b)[1..] == a[1..] + b;
      ReplaceCharAppend(a[1..], b, c, repl);
      var h := if a[0] == c then repl else [a[0]];
      assert ReplaceChar(a + b, c, repl) == h + ReplaceChar(a[1..] + b, c, repl);
      assert ReplaceChar(a, c, repl) == h + ReplaceChar(a[1..], c, repl);
      Collections.AppendAssoc(h, ReplaceChar(a[1..], c, repl), ReplaceChar(b, c, repl));
    } else {
      assert a + b == b;
    }
  }

  lemma ReplaceCharAbsent(s: string, c: char, repl: string)
    requires c !in s
    ensures ReplaceChar(s, c, repl) == s
  {
    if s != [] { ReplaceCharAbsent(s[1..], c, repl); }
  }

  lemma ReplaceCharKeepsOthers(s: string, c: char, repl: string, d: char)
    requires d != c && d !in repl && d !in s
    ensures d !in ReplaceChar(s, c, repl)
  {
    if s != [] { ReplaceCharKeepsOthers(s[1..], c, repl, d); }
  }

  // ---------------------------------------------------------------------------
  // Integers as decimal text
  // ---------------------------------------------------------------------------

  function DigitChar(d: nat): char
    requires d < 10
  {
    ('0' as int + d) as char
  }

  function DigitValue(c: char): nat {
    if IsDigit(c) then c as int - '0' as int else 0
  }

  /** Python's `str(n)` for a natural number: non-empty, digits only. */
  function NatToString(n: nat): (s: string)
    ensures |s| >= 1 && AllDigits(s)
    decreases n
  {
    if n < 10 then [DigitChar(n)] else NatToString(n / 10) + [DigitChar(n % 10)]
  }

  /** The value of a string of decimal digits (0 for the empty string). */
  function ParseNat(s: string): nat
    decreases |s|
  {
    if s == [] then 0 else ParseNat(s[..|s| - 1]) * 10 + DigitValue(s[|s| - 1])
  }

  /** Parsing the decimal rendering of a number gives the number back. */
  lemma {:induction false} ParseNatToString(n: nat)
    ensures ParseNat(NatToString(n)) == n
    decreases n
  {
    var s := NatToString(n);
    if n >= 10 {
      ParseNatToString(n / 10);
      assert s[..|s| - 1] == NatToString(n / 10);
    }
  }

  /** Python's `str(i)` for an integer. */
  function IntToString(i: int): (s: string)
    ensures |s| >= 1
  {
    if i < 0 then "-" + NatToString(-i) else NatToString(i)
  }

  /** Python's `int(s)` on an optional sign followed by decimal digits; `None` where it raises. */
  function ParseInt(s: string): (r: Option<int>)
    ensures r.Some? <==> (AllDigits(s) && |s| > 0) || (|s| > 1 && (s[0] == '-' || s[0] == '+') && AllDigits(s[1..]))
  {
    if |s| > 0 && AllDigits(s) then Some(ParseNat(s))
    else if |s| > 1 && s[0] == '-' && AllDigits(s[1..]) then Some(-(ParseNat(s[1..]) as int))
    else if |s| > 1 && s[0] == '+' && AllDigits(s[1..]) then Some(ParseNat(s[1..]))
    else None
  }

  /** `int(str(n)) == n`. */
  lemma ParseIntOfNat(n: nat)
    ensures ParseInt(NatToString(n)) == Some(n)
  {
    ParseNatToString(n);
  }

  // ---------------------------------------------------------------------------
  // Python's string order (code point by code point)
  // ---------------------------------------------------------------------------

  predicate StrLt(a: string, b: string)
    decreases |a|
  {
    if |a| == 0 then |b| > 0
    else |b| > 0 && (a[0] < b[0] || (a[0] == b[0] && StrLt(a[1..], b[1..])))
  }

  predicate StrLe(a: string, b: string) {
    a == b || StrLt(a, b)
  }

  lemma StrLtIrreflexive(a: string)
    ensures !StrLt(a, a)
  {
    if |a| > 0 { StrLtIrreflexive(a[1..]); }
  }

  lemma StrLtTransitive(a: string, b: string, c: string)
    requires StrLt(a, b) && StrLt(b, c)
    ensures StrLt(a, c)
    decreases |a|
  {
    if |a| > 0 && a[0] == b[0] && b[0] == c[0] {
      StrLtTransitive(a[1..], b[1..], c[1..]);
    }
  }

  lemma StrLtTotal(a: string, b: string)
    ensures a == b || StrLt(a, b) || StrLt(b, a)
    decreases |a|
  {
    if |a| > 0 && |b| > 0 && a[0] == b[0] {
      StrLtTotal(a[1..], b[1..]);
      if a[1..] == b[1..] {
        assert a == [a[0]] + a[1..] && b == [b[0]] + b[1..];
      }
    }
  }

  lemma StrLtAsymmetric(a: string, b: string)
    ensures !(StrLt(a, b) && StrLt(b, a))
  {
    if StrLt(a, b) && StrLt(b, a) {
      StrLtTransitive(a, b, a);
      StrLtIrreflexive(a);
    }
  }

  /** `StrLe` is a total preorder (indeed a total order). */
  lemma StrLeTotalOrder()
    ensures forall a, b :: StrLe(a, b) || StrLe(b, a)
    ensures forall a, b, c :: StrLe(a, b) && StrLe(b, c) ==> StrLe(a, c)
  {
    forall a, b ensures StrLe(a, b) || StrLe(b, a) { StrLtTotal(a, b); }
    forall a, b, c | StrLe(a, b) && StrLe(b, c) ensures StrLe(a, c) {
      if a != b && b != c { StrLtTransitive(a, b, c); }
    }
  }

  // ---------------------------------------------------------------------------
  // sorted(set_of_strings)
  // ---------------------------------------------------------------------------

  function Elems(xs: seq<string>): set<string> {
    set x | x in xs
  }

  predicate StrictlySorted(xs: seq<string>) {
    forall i, j :: 0 <= i < j < |xs| ==> StrLt(xs[i], xs[j])
  }

  /** Inserting into a strictly sorted list without duplicates, as adding to a set. */
  function InsertUnique(xs: seq<string>, x: string): (r: seq<string>)
    requires StrictlySorted(xs)
    ensures StrictlySorted(r)
    ensures Elems(r) == Elems(xs) + {x}
    decreases |xs|
  {
    if xs == [] then [x]
    else if xs[0] == x then xs
    else if StrLt(xs[0], x) then
      var t := InsertUnique(xs[1..], x);
      BelowAll(xs, x, t);
      ConsSorted(xs[0], t);
      ElemsCons(xs);
      [xs[0]] + t
    else
      StrLtTotal(xs[0], x);
      forall k | 0 < k < |xs| ensures StrLt(x, xs[k]) { StrLtTransitive(x, xs[0], xs[k]); }
      ConsSorted(x, xs);
      [x] + xs
  }

  /** The head of a strictly sorted list is below every element of the tail with `x` added. */
  lemma BelowAll(xs: seq<string>, x: string, t: seq<string>)
    requires StrictlySorted(xs) && xs != [] && StrLt(xs[0], x) && Elems(t) == Elems(xs[1..]) + {x}
    ensures forall k :: 0 <= k < |t| ==> StrLt(xs[0], t[k])
  {
    forall k | 0 <= k < |t| ensures StrLt(xs[0], t[k]) {
      assert t[k] in Elems(t);
      if t[k] != x {
        var m :| 0 <= m < |xs[1..]| && xs[1..][m] == t[k];
        assert xs[m + 1] == t[k];
      }
    }
  }

  /** An element below all of a strictly sorted list, put in front of it. */
  lemma ConsSorted(h: string, t: seq<string>)
    requires StrictlySorted(t) && forall k :: 0 <= k < |t| ==> StrLt(h, t[k])
    ensures StrictlySorted([h] + t) && Elems([h] + t) == {h} + Elems(t)
  {
    var r := [h] + t;
    forall i, j | 0 <= i < j < |r| ensures StrLt(r[i], r[j]) {
      if i > 0 {
        assert r[i] == t[i - 1] && r[j] == t[j - 1];
      } else {
        assert r[j] == t[j - 1];
      }
    }
  }

  lemma ElemsCons(xs: seq<string>)
    requires xs != []
    ensures Elems(xs) == {xs[0]} + Elems(xs[1..])
  {
    assert xs == [xs[0]] + xs[1..];
  }

  /** Two strictly sorted lists with the same elements are equal. */
  lemma {:induction false} StrictlySortedUnique(a: seq<string>, b: seq<string>)
    requires StrictlySorted(a) && StrictlySorted(b) && Elems(a) == Elems(b)
    ensures a == b
    decreases |a|
  {
    assert a != [] ==> a[0] in Elems(b);
    assert b != [] ==> b[0] in Elems(a);
    if a != [] && b != [] {
      if a[0] != b[0] {
        var i :| 0 <= i < |b| && b[i] == a[0];
        var j :| 0 <= j < |a| && a[j] == b[0];
        assert StrLt(b[0], a[0]) && StrLt(a[0], b[0]);
        StrLtAsymmetric(a[0], b[0]);
      }
      forall x | x in Elems(a[1..]) ensures x in Elems(b[1..]) {
        var i :| 0 <= i < |a[1..]| && a[1..][i] == x;
        assert StrLt(a[0], a[i + 1]);
        StrLtIrreflexive(a[0]);
        assert x in Elems(b);
        var k :| 0 <= k < |b| && b[k] == x;
        assert k != 0;
        assert b[1..][k - 1] == x;
      }
      forall x | x in Elems(b[1..]) ensures x in Elems(a[1..]) {
        var i :| 0 <= i < |b[1..]| && b[1..][i] == x;
        assert StrLt(b[0], b[i + 1]);
        StrLtIrreflexive(b[0]);
        assert x in Elems(a);
        var k :| 0 <= k < |a| && a[k] == x;
        assert k != 0;
        assert a[1..][k - 1] == x;
      }
      StrictlySortedUnique(a[1..], b[1..]);
      assert a == [a[0]] + a[1..] && b == [b[0]] + b[1..];
    }
  }

  /** A list without repeated elements is as long as its set of elements is large. */
  lemma DistinctLength(xs: seq<string>)
    requires forall i, j :: 0 <= i < j < |xs| ==> xs[i] != xs[j]
    ensures |Elems(xs)| == |xs|
  {
    if xs != [] {
      DistinctLength(xs[1..]);
      assert Elems(xs) == {xs[0]} + Elems(xs[1..]) by { assert xs == [xs[0]] + xs[1..]; }
      assert xs[0] !in Elems(xs[1..]);
    }
  }

  lemma StrictlySortedLength(xs: seq<string>)
    requires StrictlySorted(xs)
    ensures |Elems(xs)| == |xs|
  {
    StrictlySortedDistinct(xs);
    DistinctLength(xs);
  }

  /** A sorted list of a set's elements exists. */
  lemma SortedListExists(s: set<string>)
    ensures exists r :: StrictlySorted(r) && Elems(r) == s
    decreases |s|
  {
    if s == {} {
      assert StrictlySorted([]) && Elems([]) == s;
    } else {
      var x :| x in s;
      SortedListExists(s - {x});
      var r :| StrictlySorted(r) && Elems(r) == s - {x};
      var r' := InsertUnique(r, x);
      assert Elems(r') == s;
    }
  }

  /** `sorted(s)` for a set of strings: its elements in ascending order. */
  ghost function SortedOf(s: set<string>): (r: seq<string>)
    ensures StrictlySorted(r) && Elems(r) == s
  {
    SortedListExists(s);
    var r :| StrictlySorted(r) && Elems(r) == s;
    r
  }

  /** A strictly sorted list has no repeated element. */
  lemma StrictlySortedDistinct(xs: seq<string>)
    requires StrictlySorted(xs)
    ensures forall i, j :: 0 <= i < j < |xs| ==> xs[i] != xs[j]
  {
    forall i, j | 0 <= i < j < |xs| ensures xs[i] != xs[j] {
      StrLtIrreflexive(xs[i]);
    }
  }

  /** The elements of a list, sorted and without duplicates. */
  function SortedUnique(xs: seq<string>): (r: seq<string>)
    ensures StrictlySorted(r) && Elems(r) == Elems(xs)
  {
    if xs == [] then []
    else
      var r := InsertUnique(SortedUnique(xs[..|xs| - 1]), xs[|xs| - 1]);
      assert xs == xs[..|xs| - 1] + [xs[|xs| - 1]];
      assert Elems(xs) == Elems(xs[..|xs| - 1]) + {xs[|xs| - 1]};
      r
  }

  /** Sorting a set, as `sorted(s)` does: picks the elements one by one and inserts each in order. */
  method SortSet(s: set<string>) returns (r: seq<string>)
    ensures r == SortedOf(s)
  {
    var rest := s;
    r := [];
    while rest != {}
      invariant StrictlySorted(r)
      invariant Elems(r) + rest == s && Elems(r) !! rest
      decreases |rest|
    {
      var x :| x in rest;
      r := InsertUnique(r, x);
      rest := rest - {x};
    }
    StrictlySortedUnique(r, SortedOf(s));
  }
}
