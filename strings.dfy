/** Small shared vocabulary: an option type and the Python string operations
    the scripts rely on, written out over `seq<char>`. */
module Common {
  datatype Option<+T> = None | Some(value: T) {
    function GetOr(default: T): T {
      match this
      case Some(v) => v
      case None => default
    }
  }
}

module Strings {
  import opened Common

  /** `p` occurs in `s` starting at index `i`. */
  predicate OccursAt(s: string, p: string, i: int) {
    0 <= i && i + |p| <= |s| && s[i..i + |p|] == p
  }

  /** Python's `p in s` for two strings. */
  predicate Contains(s: string, p: string) {
    exists i :: 0 <= i <= |s| - |p| && OccursAt(s, p, i)
  }

  /** Python's `s.startswith(p)`. */
  predicate StartsWith(s: string, p: string) {
    |p| <= |s| && s[..|p|] == p
  }

  /** Python's `s.endswith(p)`. */
  predicate EndsWith(s: string, p: string) {
    |p| <= |s| && s[|s| - |p|..] == p
  }

  lemma PrefixContained(s: string, p: string)
    requires StartsWith(s, p)
    ensures Contains(s, p)
  {
    assert OccursAt(s, p, 0);
  }

  /** A text that lacks some character of `p` cannot contain `p`. */
  lemma MissingCharNotContained(s: string, p: string, c: char)
    requires c in p && c !in s
    ensures !Contains(s, p)
  {
  }

  /** A text contains whatever is written in its middle. */
  lemma ContainsMiddle(a: string, p: string, b: string)
    ensures Contains(a + p + b, p)
  {
    assert (a + p + b)[|a|..|a| + |p|] == p;
    assert OccursAt(a + p + b, p, |a|);
  }

  /** For a one-character text, containment is membership. */
  lemma ContainsChar(s: string, c: char)
    ensures Contains(s, [c]) <==> c in s
  {
    if c in s {
      var k :| 0 <= k < |s| && s[k] == c;
      assert OccursAt(s, [c], k);
    }
    if Contains(s, [c]) {
      var k :| 0 <= k <= |s| - 1 && OccursAt(s, [c], k);
      assert s[k..k + 1][0] == s[k];
    }
  }

  lemma ContainsInSuffix(s: string, p: string, n: nat)
    requires n <= |s| && Contains(s[n..], p)
    ensures Contains(s, p)
  {
    var i :| 0 <= i <= |s[n..]| - |p| && OccursAt(s[n..], p, i);
    assert s[n + i..n + i + |p|] == s[n..][i..i + |p|];
    assert OccursAt(s, p, n + i);
  }

  lemma OccursInTail(a: string, b: string, p: string, i: int)
    requires i >= |a|
    ensures OccursAt(a + b, p, i) ==> OccursAt(b, p, i - |a|)
  {
    if OccursAt(a + b, p, i) {
      assert (a + b)[i..i + |p|] == b[i - |a|..i - |a| + |p|];
    }
  }

  lemma OccursHead(s: string, p: string, i: int)
    requires |p| > 0
    ensures OccursAt(s, p, i) ==> 0 <= i < |s| && s[i] == p[0]
  {
    if OccursAt(s, p, i) {
      assert s[i..i + |p|][0] == s[i];
    }
  }

  // ----- replace-all of a literal text -----

  /** Python's `s.replace(pat, rep)`, which is also `re.sub` for a pattern
      that matches only its own literal text: the leftmost occurrence is
      replaced and the scan resumes after it, so occurrences never overlap. */
  function ReplaceAll(s: string, pat: string, rep: string): (r: string)
    requires |pat| > 0
    decreases |s|
  {
    if |s| < |pat| then s
    else if s[..|pat|] == pat then rep + ReplaceAll(s[|pat|..], pat, rep)
    else [s[0]] + ReplaceAll(s[1..], pat, rep)
  }

  /** A text with no occurrence of the pattern is left as it is. */
  lemma {:induction false} ReplaceAllAbsent(s: string, pat: string, rep: string)
    requires |pat| > 0 && !Contains(s, pat)
    ensures ReplaceAll(s, pat, rep) == s
    decreases |s|
  {
    if |s| >= |pat| {
      assert !OccursAt(s, pat, 0);
      assert s[..|pat|] != pat;
      if Contains(s[1..], pat) {
        ContainsInSuffix(s, pat, 1);
      }
      ReplaceAllAbsent(s[1..], pat, rep);
      assert [s[0]] + s[1..] == s;
    }
  }

  /** When the replacement starts with a character that `w` lacks, a prefix
      `w` of the result was copied verbatim from the input. */
  lemma {:induction false} VerbatimPrefix(s: string, pat: string, rep: string, w: string)
    requires |pat| > 0 && |rep| > 0 && rep[0] !in w
    ensures StartsWith(ReplaceAll(s, pat, rep), w) ==> StartsWith(s, w)
    decreases |s|
  {
    var r := ReplaceAll(s, pat, rep);
    if |s| < |pat| {
    } else if s[..|pat|] == pat {
      assert r == rep + ReplaceAll(s[|pat|..], pat, rep);
      assert |w| > 0 ==> r[0] == rep[0];
    } else if |w| > 0 && StartsWith(r, w) {
      var tail := ReplaceAll(s[1..], pat, rep);
      assert r == [s[0]] + tail;
      assert tail[..|w| - 1] == r[1..|w|];
      VerbatimPrefix(s[1..], pat, rep, w[1..]);
      assert s[..|w|] == [s[0]] + s[1..][..|w| - 1];
    }
  }

  /** Replace-all creates no occurrence of a text `q` when `q` is the replaced
      pattern itself or was absent before, provided no occurrence of `q` can
      start inside the replacement (its first character is not in `rep`) and
      no replacement can start inside `q` (the first character of `rep` is not
      in `q`). */
  lemma {:induction false} ReplaceAllLeavesNoOccurrence(s: string, pat: string, rep: string, q: string)
    requires |pat| > 0 && |rep| > 0 && |q| > 0
    requires q[0] !in rep && rep[0] !in q
    requires q == pat || !Contains(s, q)
    ensures !Contains(ReplaceAll(s, pat, rep), q)
    decreases |s|
  {
    var r := ReplaceAll(s, pat, rep);
    if |s| < |pat| {
    } else if s[..|pat|] == pat {
      var tail := ReplaceAll(s[|pat|..], pat, rep);
      assert r == rep + tail;
      if q != pat && Contains(s[|pat|..], q) {
        ContainsInSuffix(s, q, |pat|);
      }
      ReplaceAllLeavesNoOccurrence(s[|pat|..], pat, rep, q);
      forall i | 0 <= i <= |r| - |q|
        ensures !OccursAt(r, q, i)
      {
        if i < |rep| {
          OccursHead(r, q, i);
          assert r[i] == rep[i];
        } else {
          OccursInTail(rep, tail, q, i);
        }
      }
    } else {
      var tail := ReplaceAll(s[1..], pat, rep);
      assert r == [s[0]] + tail;
      if q != pat && Contains(s[1..], q) {
        ContainsInSuffix(s, q, 1);
      }
      ReplaceAllLeavesNoOccurrence(s[1..], pat, rep, q);
      VerbatimPrefix(s, pat, rep, q);
      if q != pat && StartsWith(s, q) {
        PrefixContained(s, q);
      }
      forall i | 0 <= i <= |r| - |q|
        ensures !OccursAt(r, q, i)
      {
        if i > 0 {
          OccursInTail([s[0]], tail, q, i);
        }
      }
    }
  }

  // ----- removing every copy of one character -----

  /** Python's `s.replace(c, '')` for a one-character `c`. */
  function RemoveChar(s: string, c: char): (r: string)
    ensures c !in r
    ensures forall x :: x in r <==> x in s && x != c
    ensures |r| <= |s|
  {
    if |s| == 0 then []
    else if s[0] == c then RemoveChar(s[1..], c)
    else [s[0]] + RemoveChar(s[1..], c)
  }

  lemma {:induction false} RemoveCharAbsent(s: string, c: char)
    requires c !in s
    ensures RemoveChar(s, c) == s
  {
    if |s| > 0 {
      RemoveCharAbsent(s[1..], c);
      assert [s[0]] + s[1..] == s;
    }
  }

  // ----- splitting on a separator character -----

  /** Python's `s.split(sep)` for a one-character separator: one more part
      than there are separators, the empty string giving `[""]`. */
  function Split(s: string, sep: char): (parts: seq<string>)
    ensures |parts| >= 1
    ensures forall k :: 0 <= k < |parts| ==> sep !in parts[k]
    decreases |s|
  {
    if sep !in s then [s]
    else
      var k := IndexOf(s, sep);
      [s[..k]] + Split(s[k + 1..], sep)
  }

  /** Python's `sep.join(parts)`. */
  function Join(parts: seq<string>, sep: char): (s: string)
    requires |parts| >= 1
  {
    if |parts| == 1 then parts[0] else parts[0] + [sep] + Join(parts[1..], sep)
  }

  /** Index of the first `c` in `s`. */
  function IndexOf(s: string, c: char): (k: nat)
    requires c in s
    ensures k < |s| && s[k] == c && c !in s[..k]
  {
    if s[0] == c then 0 else 1 + IndexOf(s[1..], c)
  }

  /** Text appended after the first `c` does not move it. */
  lemma IndexOfAppend(a: string, b: string, c: char)
    requires c in a
    ensures c in a + b && IndexOf(a + b, c) == IndexOf(a, c)
  {
    var k := IndexOf(a, c);
    assert (a + b)[k] == c && (a + b)[..k] == a[..k];
    IndexOfFirst(a + b, c, k);
  }

  /** The first `c` is at `k` when `s[k]` is `c` and no earlier one is. */
  lemma {:induction false} IndexOfFirst(s: string, c: char, k: nat)
    requires k < |s| && s[k] == c && c !in s[..k]
    ensures IndexOf(s, c) == k
  {
    if k > 0 {
      assert s[0] == s[..k][0];
      assert s[1..][..k - 1] == s[..k][1..];
      IndexOfFirst(s[1..], c, k - 1);
    }
  }

  /** `Split` at a separator: the text before the first one, then the
      parts of what follows it. */
  lemma SplitAtFirst(s: string, sep: char, k: nat)
    requires k < |s| && s[k] == sep && sep !in s[..k]
    ensures Split(s, sep) == [s[..k]] + Split(s[k + 1..], sep)
  {
    IndexOfFirst(s, sep, k);
  }

  /** `Join` of two or more parts: the first, a separator, the rest. */
  lemma JoinCons(first: string, rest: seq<string>, sep: char)
    requires |rest| >= 1
    ensures Join([first] + rest, sep) == first + [sep] + Join(rest, sep)
  {
    assert ([first] + rest)[1..] == rest;
  }

  lemma {:induction false} JoinSplit(s: string, sep: char)
    ensures Join(Split(s, sep), sep) == s
    decreases |s|
  {
    if sep in s {
      var k := IndexOf(s, sep);
      var tail := s[k + 1..];
      SplitAtFirst(s, sep, k);
      JoinCons(s[..k], Split(tail, sep), sep);
      JoinSplit(tail, sep);
      assert s == s[..k] + [sep] + tail;
    }
  }

  lemma {:induction false} SplitJoin(parts: seq<string>, sep: char)
    requires |parts| >= 1
    requires forall k :: 0 <= k < |parts| ==> sep !in parts[k]
    ensures Split(Join(parts, sep), sep) == parts
  {
    if |parts| > 1 {
      var first, others := parts[0], parts[1..];
      var rest := Join(others, sep);
      var s := first + [sep] + rest;
      assert parts == [first] + others;
      JoinCons(first, others, sep);
      assert s[..|first|] == first && s[|first| + 1..] == rest;
      SplitAtFirst(s, sep, |first|);
      SplitJoin(others, sep);
    } else {
      assert Join(parts, sep) == parts[0];
    }
  }

  // ----- whitespace, case and digits -----

  /** The characters for which Python's `str.isspace()` holds. */
  predicate IsSpace(c: char) {
    ('\U{9}' <= c <= '\U{D}') || ('\U{1C}' <= c <= '\U{20}') ||
    c == '\U{85}' || c == '\U{A0}' || c == '\U{1680}' ||
    ('\U{2000}' <= c <= '\U{200A}') || c == '\U{2028}' || c == '\U{2029}' ||
    c == '\U{202F}' || c == '\U{205F}' || c == '\U{3000}'
  }

  /** The tail of `s` after its leading whitespace. */
  function TrimStart(s: string): (r: string)
    ensures |r| <= |s| && r == s[|s| - |r|..]
    ensures r == [] || !IsSpace(r[0])
    ensures forall k :: 0 <= k < |s| - |r| ==> IsSpace(s[k])
  {
    if |s| > 0 && IsSpace(s[0]) then TrimStart(s[1..]) else s
  }

  /** The head of `s` before its trailing whitespace. */
  function TrimEnd(s: string): (r: string)
    ensures |r| <= |s| && r == s[..|r|]
    ensures r == [] || !IsSpace(r[|r| - 1])
    ensures forall k :: |r| <= k < |s| ==> IsSpace(s[k])
  {
    if |s| > 0 && IsSpace(s[|s| - 1]) then TrimEnd(s[..|s| - 1]) else s
  }

  /** Python's `s.strip()`: the text without surrounding whitespace. */
  function Strip(s: string): (r: string)
    ensures r == [] || (!IsSpace(r[0]) && !IsSpace(r[|r| - 1]))
    ensures |r| <= |s|
  {
    TrimEnd(TrimStart(s))
  }

  /** `Strip(s)` is a head of `TrimStart(s)`, the tail of `s` after its
      leading whitespace, and is followed there only by whitespace: with
      `TrimStart`'s contract, a slice of `s` with only whitespace around it. */
  lemma StripHead(s: string)
    ensures |Strip(s)| <= |TrimStart(s)| && Strip(s) == TrimStart(s)[..|Strip(s)|]
    ensures forall k :: |Strip(s)| <= k < |TrimStart(s)| ==> IsSpace(TrimStart(s)[k])
  {
    assert Strip(s) == TrimEnd(TrimStart(s));
  }

  /** Lower-case of one character, for the Latin and Cyrillic capitals. */
  function LowerChar(c: char): (d: char) {
    if 'A' <= c <= 'Z' then (c as int + 32) as char
    else if 'А' <= c <= 'Я' then (c as int + 0x20) as char
    else if 'Ѐ' <= c <= 'Џ' then (c as int + 0x50) as char
    else c
  }

  /** Python's `s.lower()`, restricted to the Latin and Cyrillic alphabets. */
  function Lower(s: string): (r: string)
    ensures |r| == |s|
    ensures forall k :: 0 <= k < |s| ==> r[k] == LowerChar(s[k])
  {
    if |s| == 0 then [] else [LowerChar(s[0])] + Lower(s[1..])
  }

  predicate IsDigit(c: char) {
    '0' <= c <= '9'
  }

  /** Python's `s.isdigit()` on ASCII digits: non-empty and all digits. */
  predicate IsDigits(s: string) {
    |s| > 0 && forall k :: 0 <= k < |s| ==> IsDigit(s[k])
  }

  function DigitValue(c: char): (d: nat)
    requires IsDigit(c)
    ensures d < 10
  {
    c as int - '0' as int
  }

  /** The number a run of decimal digits denotes. */
  function DigitsValue(s: string): (n: nat)
    requires forall k :: 0 <= k < |s| ==> IsDigit(s[k])
  {
    if |s| == 0 then 0
    else DigitsValue(s[..|s| - 1]) * 10 + DigitValue(s[|s| - 1])
  }

  /** Python's `str(n)` for a natural number: its decimal digits. */
  function NatText(n: nat): (s: string)
    ensures IsDigits(s)
    ensures DigitsValue(s) == n
  {
    var d := [(('0' as int) + n % 10) as char];
    if n < 10 then d
    else
      var s := NatText(n / 10) + d;
      assert s[..|s| - 1] == NatText(n / 10);
      s
  }

  /** Python's `str(n)` for any integer. */
  function IntText(n: int): string {
    if n < 0 then "-" + NatText(-n) else NatText(n)
  }

  /** A text that starts and ends with a non-space is its own strip. */
  lemma StripUnpadded(s: string)
    requires s == [] || (!IsSpace(s[0]) && !IsSpace(s[|s| - 1]))
    ensures Strip(s) == s
  {
  }

  /** Python's `int(s)` on a text: surrounding whitespace, an optional sign
      and decimal digits; `None` where Python raises `ValueError`. */
  function ParseInt(s: string): (r: Option<int>)
    ensures r.Some? ==> Strip(s) != []
  {
    var t := Strip(s);
    if |t| > 0 && (t[0] == '+' || t[0] == '-') then
      if IsDigits(t[1..]) then
        Some(if t[0] == '-' then -(DigitsValue(t[1..]) as int) else DigitsValue(t[1..]))
      else None
    else if IsDigits(t) then Some(DigitsValue(t))
    else None
  }

  /** `int(str(n)) == n`. */
  lemma ParseIntText(n: int)
    ensures ParseInt(IntText(n)) == Some(n)
  {
    var t := IntText(n);
    if n < 0 {
      var d := NatText(-n);
      assert t[1..] == d && t[0] == '-';
      assert t[|t| - 1] == d[|d| - 1] && IsDigit(d[|d| - 1]);
      StripUnpadded(t);
    } else {
      assert IsDigit(t[0]) && IsDigit(t[|t| - 1]);
      StripUnpadded(t);
    }
  }

  // ----- splitting into lines -----

  /** The characters Python's `str.splitlines()` treats as line breaks
      (`\r\n` is also a single break). */
  predicate IsLineBreak(c: char) {
    ('\U{A}' <= c <= '\U{D}') || ('\U{1C}' <= c <= '\U{1E}') ||
    c == '\U{85}' || c == '\U{2028}' || c == '\U{2029}'
  }

  predicate HasLineBreak(s: string) {
    exists k :: 0 <= k < |s| && IsLineBreak(s[k])
  }

  /** Where the line that starts at `i` ends: the first break at or after
      `i`, or the end of the text. */
  function LineEnd(s: string, i: nat): (e: nat)
    requires i <= |s|
    ensures i <= e <= |s|
    decreases |s| - i
  {
    if i == |s| || IsLineBreak(s[i]) then i else LineEnd(s, i + 1)
  }

  /** Where the next line starts after a line ending at `e`: past a `\r\n`
      pair, past any other break, or at the end of the text. */
  function NextLine(s: string, e: nat): (f: nat)
    requires e <= |s|
    ensures e <= f <= |s| && (e < |s| ==> e < f)
  {
    if e == |s| then e
    else if s[e] == '\r' && e + 1 < |s| && s[e + 1] == '\n' then e + 2
    else e + 1
  }

  /** The lines of `s` from position `i` on. */
  function LinesFrom(s: string, i: nat): seq<string>
    requires i <= |s|
    decreases |s| - i
  {
    if i == |s| then []
    else [s[i..LineEnd(s, i)]] + LinesFrom(s, NextLine(s, LineEnd(s, i)))
  }

  /** Python's `s.splitlines()`: the lines of `s`, no final empty line for a
      trailing break, `[]` for the empty text. */
  function SplitLines(s: string): seq<string> {
    LinesFrom(s, 0)
  }

  /** A line runs up to its break and contains none. */
  lemma {:induction false} LineEndBreak(s: string, i: nat)
    requires i <= |s|
    ensures forall j :: i <= j < LineEnd(s, i) ==> !IsLineBreak(s[j])
    ensures LineEnd(s, i) < |s| ==> IsLineBreak(s[LineEnd(s, i)])
    decreases |s| - i
  {
    if i < |s| && !IsLineBreak(s[i]) {
      LineEndBreak(s, i + 1);
    }
  }

  /** No line has a break in it. */
  lemma {:induction false} LinesHaveNoBreaks(s: string, i: nat)
    requires i <= |s|
    ensures forall k :: 0 <= k < |LinesFrom(s, i)| ==> !HasLineBreak(LinesFrom(s, i)[k])
    decreases |s| - i
  {
    if i < |s| {
      var e := LineEnd(s, i);
      LineEndBreak(s, i);
      LinesHaveNoBreaks(s, NextLine(s, e));
      var lines := LinesFrom(s, i);
      forall k | 0 <= k < |lines| ensures !HasLineBreak(lines[k]) {
        if k == 0 {
          assert forall j :: 0 <= j < e - i ==> s[i..e][j] == s[i + j];
        } else {
          assert lines[k] == LinesFrom(s, NextLine(s, e))[k - 1];
        }
      }
    }
  }

  lemma SplitLinesHaveNoBreaks(s: string)
    ensures forall k :: 0 <= k < |SplitLines(s)| ==> !HasLineBreak(SplitLines(s)[k])
  {
    LinesHaveNoBreaks(s, 0);
  }

  /** A line that reaches a break at `k` ends there at the latest. */
  lemma {:induction false} LineEndAtBreak(s: string, i: nat, k: nat)
    requires i <= k < |s| && IsLineBreak(s[k])
    ensures LineEnd(s, i) <= k
    decreases k - i
  {
    if i < k && !IsLineBreak(s[i]) {
      LineEndAtBreak(s, i + 1, k);
    }
  }

  /** A line that ends inside `a` ends at the same place in `a + t`. */
  lemma {:induction false} LineEndAppend(a: string, t: string, i: nat)
    requires i <= |a| && LineEnd(a, i) < |a|
    ensures LineEnd(a + t, i) == LineEnd(a, i)
    decreases |a| - i
  {
    if !IsLineBreak(a[i]) {
      LineEndAppend(a, t, i + 1);
    }
  }

  /** Positions in `t` are shifted by `|a|` in `a + t`. */
  lemma {:induction false} LineEndShift(a: string, t: string, j: nat)
    requires j <= |t|
    ensures LineEnd(a + t, |a| + j) == |a| + LineEnd(t, j)
    decreases |t| - j
  {
    if j < |t| {
      assert (a + t)[|a| + j] == t[j];
      if !IsLineBreak(t[j]) {
        LineEndShift(a, t, j + 1);
      }
    }
  }

  lemma SliceShift(a: string, t: string, j: nat, e: nat)
    requires j <= e <= |t|
    ensures (a + t)[|a| + j..|a| + e] == t[j..e]
  {
  }

  /** One step of `LinesFrom`: the line at `i`, then the lines after it. */
  lemma LinesFromStep(s: string, i: nat)
    requires i < |s|
    ensures LinesFrom(s, i) == [s[i..LineEnd(s, i)]] + LinesFrom(s, NextLine(s, LineEnd(s, i)))
  {
  }

  /** A line without breaks followed by `\n` ends at that `\n`. */
  lemma LineEndOfLine(line: string)
    requires !HasLineBreak(line)
    ensures LineEnd(line + "\n", 0) == |line|
  {
    var t := line + "\n";
    LineEndBreak(t, 0);
    LineEndAtBreak(t, 0, |line|);
    assert forall j :: 0 <= j < |line| ==> t[j] == line[j] && !IsLineBreak(t[j]);
  }

  /** Where that line ends and the next would start at the end of `a`. */
  lemma LastLineBounds(a: string, line: string)
    requires !HasLineBreak(line)
    ensures LineEnd(a + (line + "\n"), |a|) == |a| + |line|
    ensures NextLine(a + (line + "\n"), |a| + |line|) == |a + (line + "\n")|
  {
    var t := line + "\n";
    LineEndOfLine(line);
    LineEndShift(a, t, 0);
    assert (a + t)[|a| + |line|] == '\n';
  }

  /** The line at `i` is the last one when the next would start at the
      end of the text. */
  lemma OnlyLineFrom(s: string, i: nat, line: string)
    requires i < |s| && LineEnd(s, i) == i + |line| && NextLine(s, i + |line|) == |s|
    requires s[i..i + |line|] == line
    ensures LinesFrom(s, i) == [line]
  {
    LinesFromStep(s, i);
    assert LinesFrom(s, |s|) == [];
  }

  /** A line without breaks and `\n` at the end of a text is its last line. */
  lemma LastLine(a: string, line: string)
    requires !HasLineBreak(line)
    ensures LinesFrom(a + (line + "\n"), |a|) == [line]
  {
    var t := line + "\n";
    LastLineBounds(a, line);
    SliceShift(a, t, 0, |line|);
    assert t[0..|line|] == line;
    OnlyLineFrom(a + t, |a|, line);
  }

  /** Appending a line without breaks and `\n` to a text that is empty or
      ends in `\n` appends that line to its lines from `i` on. */
  lemma {:induction false} LinesAppend(a: string, line: string, i: nat)
    requires i <= |a| && (i == |a| || a[|a| - 1] == '\n')
    requires !HasLineBreak(line)
    ensures LinesFrom(a + (line + "\n"), i) == LinesFrom(a, i) + [line]
    decreases |a| - i
  {
    var t := line + "\n";
    if i == |a| {
      LastLine(a, line);
    } else {
      var e := LineEnd(a, i);
      LineEndAtBreak(a, i, |a| - 1);
      LineEndAppend(a, t, i);
      var f := NextLine(a, e);
      assert NextLine(a + t, e) == f by {
        assert (a + t)[e] == a[e];
        if e + 1 < |a| {
          assert (a + t)[e + 1] == a[e + 1];
        }
      }
      assert (a + t)[i..e] == a[i..e];
      LinesAppend(a, line, f);
    }
  }

  /** Appending a line and `\n` to a text that is empty or ends in `\n`
      appends exactly that line to its lines. */
  lemma SplitLinesAppend(a: string, line: string)
    requires a == [] || a[|a| - 1] == '\n'
    requires !HasLineBreak(line)
    ensures SplitLines(a + (line + "\n")) == SplitLines(a) + [line]
  {
    LinesAppend(a, line, 0);
  }

  // ----- counting -----

  /** How often `x` occurs in `s`. */
  function Occurrences<T(==)>(s: seq<T>, x: T): nat
    decreases |s|
  {
    if s == [] then 0
    else Occurrences(s[..|s| - 1], x) + if s[|s| - 1] == x then 1 else 0
  }

  /** A value missing from `s` occurs in it zero times. */
  lemma {:induction false} OccurrencesAbsent<T>(s: seq<T>, x: T)
    requires x !in s
    ensures Occurrences(s, x) == 0
    decreases |s|
  {
    if s != [] {
      var init := s[..|s| - 1];
      assert forall t :: t in init ==> t in s;
      OccurrencesAbsent(init, x);
    }
  }

  /** The first `i + 1` elements are the first `i` and then element `i`. */
  lemma PrefixSnoc<T>(s: seq<T>, i: nat)
    requires i < |s|
    ensures s[..i + 1] == s[..i] + [s[i]]
  {
  }
}
