/**
 * Character classes and string operations of the JavaScript runtime that the
 * result-display code relies on: `\s` and `trim()`, `.` (which stops at line
 * terminators), `indexOf`, `includes`, `split` with a string separator, and
 * `parseInt(d, 10)` of a run of decimal digits.
 */
module Strings {

  datatype Option<T> = None | Some(value: T)

  /** The line terminators of ECMAScript: `.` does not match them and `^`/`$` in multiline mode stop at them. */
  predicate IsLineTerm(c: char) {
    c == '\n' || c == '\r' || c == '\U{2028}' || c == '\U{2029}'
  }

  /** ECMAScript WhiteSpace and LineTerminator: the class `\s` and what `trim()` removes. */
  predicate IsSpace(c: char) {
    IsLineTerm(c) || c == '\t' || c == '\U{000B}' || c == '\U{000C}' || c == ' ' ||
    c == '\U{00A0}' || c == '\U{1680}' || ('\U{2000}' <= c <= '\U{200A}') ||
    c == '\U{202F}' || c == '\U{205F}' || c == '\U{3000}' || c == '\U{FEFF}'
  }

  predicate IsDigit(c: char) { '0' <= c <= '9' }

  /** Case folding of a case-insensitive regex, restricted to the ASCII letters the patterns use. */
  function Upper(c: char): char {
    if 'a' <= c <= 'z' then (c as int - 32) as char else c
  }

  predicate StartsWith(s: string, p: string) {
    |p| <= |s| && s[..|p|] == p
  }

  /** `s` begins with `p` under the `/i` flag. */
  predicate StartsWithCI(s: string, p: string) {
    |p| <= |s| && forall i :: 0 <= i < |p| ==> Upper(s[i]) == Upper(p[i])
  }

  /** `pat` occurs in `s` at index `i`. */
  predicate Occurs(s: string, pat: string, i: int) {
    0 <= i && i + |pat| <= |s| && s[i..i + |pat|] == pat
  }

  /** `s.includes(pat)` */
  predicate Contains(s: string, pat: string) {
    exists i | 0 <= i <= |s| :: Occurs(s, pat, i)
  }

  predicate NoChar(s: string, c: char) {
    forall i :: 0 <= i < |s| ==> s[i] != c
  }

  predicate NoLineTerm(s: string) {
    forall i :: 0 <= i < |s| ==> !IsLineTerm(s[i])
  }

  predicate AllSpace(s: string) {
    forall i :: 0 <= i < |s| ==> IsSpace(s[i])
  }

  /** The first occurrence of `pat` in `s` at or after `k`, or -1. */
  function IndexFrom(s: string, pat: string, k: nat): (r: int)
    requires k <= |s|
    ensures r == -1 || k <= r <= |s|
    ensures r >= 0 ==> Occurs(s, pat, r)
    ensures forall j :: k <= j <= |s| && (r < 0 || j < r) ==> !Occurs(s, pat, j)
    decreases |s| - k
  {
    if Occurs(s, pat, k) then k
    else if k == |s| then -1
    else IndexFrom(s, pat, k + 1)
  }

  /** `s.indexOf(pat)`: the first occurrence, or -1. */
  function IndexOf(s: string, pat: string): (r: int)
    ensures -1 <= r <= |s|
    ensures r == -1 <==> !Contains(s, pat)
    ensures r >= 0 ==> Occurs(s, pat, r)
    ensures forall j :: 0 <= j < r ==> !Occurs(s, pat, j)
  {
    IndexFrom(s, pat, 0)
  }

  /** `s.split(sep)` for a non-empty string separator: the pieces between non-overlapping leftmost occurrences. */
  function Split(s: string, sep: string): (r: seq<string>)
    requires |sep| > 0
    ensures |r| >= 1
    decreases |s|
  {
    var i := IndexOf(s, sep);
    if i < 0 then [s] else [s[..i]] + Split(s[i + |sep|..], sep)
  }

  /** `parts.join(sep)`: the inverse of `Split`. */
  function Join(parts: seq<string>, sep: string): string
    requires |parts| >= 1
  {
    if |parts| == 1 then parts[0] else parts[0] + sep + Join(parts[1..], sep)
  }

  lemma {:induction false} JoinSplit(s: string, sep: string)
    requires |sep| > 0
    ensures Join(Split(s, sep), sep) == s
    decreases |s|
  {
    var i := IndexOf(s, sep);
    if i >= 0 {
      var rest := s[i + |sep|..];
      var parts := Split(s, sep);
      assert parts == [s[..i]] + Split(rest, sep);
      JoinSplit(rest, sep);
      assert parts[1..] == Split(rest, sep);
      calc {
        Join(parts, sep);
        parts[0] + sep + Join(parts[1..], sep);
        s[..i] + sep + rest;
        { OccursSplice(s, sep, i); }
        s;
      }
    }
  }

  /** No piece of a split contains the separator. */
  lemma {:induction false} SplitPiecesFree(s: string, sep: string)
    requires |sep| > 0
    ensures forall k :: 0 <= k < |Split(s, sep)| ==> !Contains(Split(s, sep)[k], sep)
    decreases |s|
  {
    var i := IndexOf(s, sep);
    if i < 0 {
    } else {
      var rest := s[i + |sep|..];
      var tail := Split(rest, sep);
      SplitPiecesFree(rest, sep);
      PrefixBeforeFirstIsFree(s, sep, i);
      var parts := Split(s, sep);
      assert parts == [s[..i]] + tail;
      forall k | 0 <= k < |parts| ensures !Contains(parts[k], sep) {
        if k > 0 { assert parts[k] == tail[k - 1]; }
      }
    }
  }

  /** The text before the first occurrence does not contain the pattern. */
  lemma PrefixBeforeFirstIsFree(s: string, pat: string, i: int)
    requires 0 <= i <= |s| && |pat| > 0
    requires forall j :: 0 <= j < i ==> !Occurs(s, pat, j)
    ensures !Contains(s[..i], pat)
  {
    forall j | Occurs(s[..i], pat, j) ensures false {
      assert s[..i][j..j + |pat|] == s[j..j + |pat|];
      assert Occurs(s, pat, j);
    }
  }

  /** A string that contains the separator splits into at least two pieces. */
  lemma SplitContains(s: string, sep: string)
    requires |sep| > 0 && Contains(s, sep)
    ensures |Split(s, sep)| >= 2
    ensures Split(s, sep)[0] == s[..IndexOf(s, sep)]
    ensures Split(s, sep)[1] == Split(s[IndexOf(s, sep) + |sep|..], sep)[0]
  {
  }

  /** An occurrence with none before it is the one `indexOf` finds. */
  lemma IndexOfAt(s: string, pat: string, i: nat)
    requires Occurs(s, pat, i) && forall k :: 0 <= k < i ==> !Occurs(s, pat, k)
    ensures IndexOf(s, pat) == i
  {
    assert Contains(s, pat) by { assert 0 <= i <= |s| && Occurs(s, pat, i); }
  }

  /** `s.split(sep)[0]`: the text before the first occurrence of `sep`, or all of it. */
  function UpTo(s: string, sep: string): string
    requires |sep| > 0
  {
    var i := IndexOf(s, sep);
    if i < 0 then s else s[..i]
  }

  lemma UpToSplit(s: string, sep: string)
    requires |sep| > 0
    ensures UpTo(s, sep) == Split(s, sep)[0]
  {
  }

  /** `s.split(sep)[1]`, with `undefined` (falsy like `""`) when there is no second piece. */
  function SecondSplit(s: string, sep: string): string
    requires |sep| > 0
  {
    var i := IndexOf(s, sep);
    if i < 0 then [] else UpTo(s[i..][|sep|..], sep)
  }

  /** `SecondSplit` is the second piece of `Split`, or empty when there is none. */
  lemma SecondSplitIsSplit(s: string, sep: string)
    requires |sep| > 0
    ensures var pieces := Split(s, sep); SecondSplit(s, sep) == if |pieces| >= 2 then pieces[1] else []
  {
    var i := IndexOf(s, sep);
    if i >= 0 {
      SplitContains(s, sep);
      DropDrop(s, i, |sep|, i + |sep|);
      UpToSplit(s[i + |sep|..], sep);
    }
  }

  lemma DropDrop(s: string, a: nat, b: nat, e: nat)
    requires a + b == e <= |s|
    ensures s[a..][b..] == s[e..]
  {
  }

  /** The second piece is what follows the first occurrence, up to the next one. */
  lemma SecondSplitAfter(s: string, sep: string, i: nat, e: nat)
    requires |sep| > 0 && IndexOf(s, sep) == i && e == i + |sep|
    ensures e <= |s| && SecondSplit(s, sep) == UpTo(s[e..], sep)
  {
    DropDrop(s, i, |sep|, e);
  }

  /** A string that does not contain the separator splits into itself. */
  lemma SplitAbsent(s: string, sep: string)
    requires |sep| > 0 && !Contains(s, sep)
    ensures Split(s, sep) == [s]
  {
  }

  /** Two texts without the character `c` make a text without it. */
  lemma NoCharConcat(a: string, b: string, c: char)
    requires NoChar(a, c) && NoChar(b, c)
    ensures NoChar(a + b, c)
  {
    forall i | 0 <= i < |a + b| ensures (a + b)[i] != c {
      if i >= |a| {
        assert (a + b)[i] == b[i - |a|];
      }
    }
  }

  /** A text without the character `c` does not contain it. */
  lemma NoCharAbsent(s: string, c: char)
    requires NoChar(s, c)
    ensures !Contains(s, [c])
  {
    forall j | 0 <= j <= |s| ensures !Occurs(s, [c], j) {
      if j < |s| {
        assert s[j..j + 1][0] == s[j];
      }
    }
  }

  /** Splitting at a one-character separator cuts at its first occurrence, after `a`. */
  lemma SplitLead(a: string, c: char, b: string)
    requires NoChar(a, c)
    ensures Split(a + [c] + b, [c]) == [a] + Split(b, [c])
  {
    var t := a + [c] + b;
    assert Occurs(t, [c], |a|) by {
      assert t[|a|..|a| + 1] == [c];
    }
    forall j | 0 <= j < |a| ensures !Occurs(t, [c], j) {
      assert t[j..j + 1][0] == a[j];
    }
    assert IndexOf(t, [c]) == |a|;
    assert t[..|a|] == a;
    assert t[|a| + 1..] == b;
  }

  /** An occurrence splits the text into what precedes it, the pattern and what follows. */
  lemma OccursSplice(s: string, pat: string, i: int)
    requires Occurs(s, pat, i)
    ensures s == s[..i] + pat + s[i + |pat|..]
  {
    var before, at, after := s[..i], s[i..i + |pat|], s[i + |pat|..];
    assert s == before + at + after;
  }

  function TrimStart(s: string): (r: string)
    ensures |r| <= |s| && r == s[|s| - |r|..]
    ensures AllSpace(s[..|s| - |r|])
    ensures r == [] || !IsSpace(r[0])
    decreases |s|
  {
    if s != [] && IsSpace(s[0]) then
      var t := s[1..];
      var r := TrimStart(t);
      assert AllSpace(s[..|s| - |r|]) by {
        forall i | 0 < i < |s| - |r| ensures IsSpace(s[i]) {
          assert s[i] == t[..|t| - |r|][i - 1];
        }
      }
      r
    else s
  }

  function TrimEnd(s: string): (r: string)
    ensures |r| <= |s| && r == s[..|r|]
    ensures AllSpace(s[|r|..])
    ensures r == [] || !IsSpace(r[|r| - 1])
    decreases |s|
  {
    if s != [] && IsSpace(s[|s| - 1]) then
      var t := s[..|s| - 1];
      var r := TrimEnd(t);
      assert AllSpace(s[|r|..]) by {
        forall i | |r| <= i < |s| ensures IsSpace(s[i]) {
          if i < |t| { assert s[i] == t[|r|..][i - |r|]; }
        }
      }
      r
    else s
  }

  /** The number of whitespace characters `trim()` removes from the front. */
  function Lead(s: string): nat {
    |s| - |TrimStart(s)|
  }

  /** `s.trim()`: the longest infix of `s` that neither begins nor ends with whitespace. */
  function Trim(s: string): (r: string)
    ensures Lead(s) + |r| <= |s| && r == s[Lead(s)..Lead(s) + |r|]
    ensures AllSpace(s[..Lead(s)]) && AllSpace(s[Lead(s) + |r|..])
    ensures r == [] || (!IsSpace(r[0]) && !IsSpace(r[|r| - 1]))
  {
    var a := TrimStart(s);
    var r := TrimEnd(a);
    PrefixOfSuffix(s, a, r);
    assert Lead(s) == |s| - |a|;
    assert AllSpace(s[Lead(s) + |r|..]) by {
      assert s[Lead(s) + |r|..] == a[|r|..];
    }
    r
  }

  /** A prefix `r` of a suffix `a` of `s` is an infix of `s`, followed by the rest of `a`. */
  lemma PrefixOfSuffix(s: string, a: string, r: string)
    requires |a| <= |s| && a == s[|s| - |a|..] && |r| <= |a| && r == a[..|r|]
    ensures r == s[|s| - |a|..|s| - |a| + |r|] && s[|s| - |a| + |r|..] == a[|r|..]
  {
  }

  /** Trimming a string made only of whitespace yields the empty string. */
  lemma TrimAllSpace(s: string)
    requires AllSpace(s)
    ensures Trim(s) == []
  {
  }

  /** Trimming a text that neither begins nor ends with white space changes nothing. */
  lemma TrimSame(s: string)
    requires s != [] && !IsSpace(s[0]) && !IsSpace(s[|s| - 1])
    ensures Trim(s) == s
  {
    assert TrimStart(s) == s;
    assert TrimEnd(s) == s;
  }

  /** Trimming drops a single leading space before such a text. */
  lemma TrimSpace(b: string)
    requires b != [] && !IsSpace(b[0]) && !IsSpace(b[|b| - 1])
    ensures Trim(" " + b) == b
  {
    assert (" " + b)[1..] == b;
    assert TrimStart(b) == b;
    assert TrimStart(" " + b) == b;
    assert TrimEnd(b) == b;
  }

  /** Trimming drops a single trailing line break after such a text. */
  lemma TrimLineBreak(s: string)
    requires s != [] && !IsSpace(s[0]) && !IsSpace(s[|s| - 1])
    ensures Trim(s + "\n") == s
  {
    var t := s + "\n";
    assert TrimStart(t) == t;
    assert t[..|t| - 1] == s;
    assert TrimEnd(s) == s;
    assert TrimEnd(t) == s;
  }

  /** The end of the run of whitespace starting at `i`. */
  function SkipSpace(s: string, i: nat): (j: nat)
    requires i <= |s|
    ensures i <= j <= |s|
    ensures forall k :: i <= k < j ==> IsSpace(s[k])
    ensures j == |s| || !IsSpace(s[j])
    decreases |s| - i
  {
    if i < |s| && IsSpace(s[i]) then SkipSpace(s, i + 1) else i
  }

  /** The end of the run of decimal digits starting at `i`. */
  function DigitsEnd(s: string, i: nat): (j: nat)
    requires i <= |s|
    ensures i <= j <= |s|
    ensures forall k :: i <= k < j ==> IsDigit(s[k])
    ensures j == |s| || !IsDigit(s[j])
    decreases |s| - i
  {
    if i < |s| && IsDigit(s[i]) then DigitsEnd(s, i + 1) else i
  }

  /** Every character of `s` in `[a, b)` is white space. */
  predicate SpacesIn(s: string, a: nat, b: nat)
    requires a <= b <= |s|
  {
    forall k :: a <= k < b ==> IsSpace(s[k])
  }

  /** Every character of `s` in `[a, b)` is a decimal digit. */
  predicate DigitsIn(s: string, a: nat, b: nat)
    requires a <= b <= |s|
  {
    forall k :: a <= k < b ==> IsDigit(s[k])
  }

  /** A run of white space that stops at a non-space ends where `SkipSpace` stops. */
  lemma SkipSpaceTo(s: string, a: nat, b: nat)
    requires a <= b <= |s| && SpacesIn(s, a, b) && (b == |s| || !IsSpace(s[b]))
    ensures SkipSpace(s, a) == b
  {
  }

  /** A stretch without line terminators that stops at one, or at the end, ends where `LineEnd` stops. */
  lemma LineEndTo(s: string, a: nat, b: nat)
    requires a <= b <= |s| && (forall k :: a <= k < b ==> !IsLineTerm(s[k])) && (b == |s| || IsLineTerm(s[b]))
    ensures LineEnd(s, a) == b
  {
  }

  /** A run of digits that stops at a non-digit ends where `DigitsEnd` stops. */
  lemma DigitsEndTo(s: string, a: nat, b: nat)
    requires a <= b <= |s| && DigitsIn(s, a, b) && (b == |s| || !IsDigit(s[b]))
    ensures DigitsEnd(s, a) == b
  {
  }

  /** The first line terminator at or after `i`, or the end of `s`: where `.*` stops. */
  function LineEnd(s: string, i: nat): (j: nat)
    requires i <= |s|
    ensures i <= j <= |s|
    ensures forall k :: i <= k < j ==> !IsLineTerm(s[k])
    ensures j == |s| || IsLineTerm(s[j])
    decreases |s| - i
  {
    if i < |s| && !IsLineTerm(s[i]) then LineEnd(s, i + 1) else i
  }

  /** `parseInt(d, 10)` of a run of decimal digits. */
  function DigitsValue(d: string): nat
  {
    if d == [] then 0 else 10 * DigitsValue(d[..|d| - 1]) + (d[|d| - 1] as int - '0' as int) % 10
  }

  /**
   * The lazy `X(.*?)P` search: the first index `j >= i` at which `pat` occurs,
   * provided no line terminator lies between `i` and `j`.
   */
  function FindOnLine(s: string, i: nat, pat: string): (r: Option<nat>)
    requires i <= |s|
    ensures r.Some? ==> i <= r.value && Occurs(s, pat, r.value) && NoLineTerm(s[i..r.value])
    ensures r.Some? ==> forall j :: i <= j < r.value ==> !Occurs(s, pat, j)
    ensures r.None? ==> forall j :: i <= j <= |s| && NoLineTerm(s[i..j]) ==> !Occurs(s, pat, j)
    decreases |s| - i
  {
    if Occurs(s, pat, i) then Some(i)
    else if i == |s| || IsLineTerm(s[i]) then
      assert forall j :: i < j <= |s| ==> s[i..j][0] == s[i];
      None
    else
      var r := FindOnLine(s, i + 1, pat);
      assert forall j :: i < j <= |s| ==> s[i..j] == [s[i]] + s[i + 1..j];
      r
  }

  /** `FindOnLine` returns the first occurrence when it lies on the same line. */
  lemma {:induction false} FindOnLineAt(s: string, i: nat, pat: string, j: nat)
    requires i <= j <= |s| && Occurs(s, pat, j) && NoLineTerm(s[i..j])
    requires forall k :: i <= k < j ==> !Occurs(s, pat, k)
    ensures FindOnLine(s, i, pat) == Some(j)
    decreases j - i
  {
    if i < j {
      assert !Occurs(s, pat, i);
      assert s[i..j][0] == s[i];
      assert s[i + 1..j] == s[i..j][1..];
      FindOnLineAt(s, i + 1, pat, j);
    }
  }

  /** Searching for one character stops at its first occurrence before the end of the line. */
  lemma FindCharOnLine(s: string, i: nat, c: char)
    requires i <= |s| && !IsLineTerm(c)
    ensures var r := FindOnLine(s, i, [c]);
      (r.Some? ==>
         i <= r.value < LineEnd(s, i) && s[r.value] == c && forall k :: i <= k < r.value ==> s[k] != c) &&
      (r.None? ==> forall k :: i <= k < LineEnd(s, i) ==> s[k] != c)
  {
    var r := FindOnLine(s, i, [c]);
    forall k | i <= k < |s| ensures Occurs(s, [c], k) <==> s[k] == c {
      assert s[k..k + 1] == [s[k]];
    }
    if r.Some? {
      var j := r.value;
      forall k | i <= k < j ensures !IsLineTerm(s[k]) {
        assert s[i..j][k - i] == s[k];
      }
    } else {
      forall k | i <= k < LineEnd(s, i) ensures s[k] != c {
        assert NoLineTerm(s[i..k]) by {
          forall m | 0 <= m < k - i ensures !IsLineTerm(s[i..k][m]) {
            assert s[i..k][m] == s[i + m];
          }
        }
      }
    }
  }

  /** No one-character occurrence of `c` in `[a, k)` means `c` does not occur in `s[a..k]`. */
  lemma NoOccurrenceNoChar(s: string, a: nat, k: nat, c: char)
    requires a <= k <= |s|
    requires forall j :: a <= j < k ==> !Occurs(s, [c], j)
    ensures NoChar(s[a..k], c)
  {
    forall i | 0 <= i < k - a ensures s[a..k][i] != c {
      assert !Occurs(s, [c], a + i);
      assert s[a + i..a + i + 1] == [s[a + i]];
    }
  }

  /** A part of a string that does not contain `pat` does not contain it either. */
  lemma InfixFree(p: string, i: nat, n: nat, pat: string)
    requires i + n <= |p| && !Contains(p, pat)
    ensures !Contains(p[i..i + n], pat)
  {
    var q := p[i..i + n];
    forall j | 0 <= j <= n ensures !Occurs(q, pat, j) {
      assert !Occurs(p, pat, i + j);
      if j + |pat| <= n {
        var a, b := q[j..j + |pat|], p[i + j..i + j + |pat|];
        forall k | 0 <= k < |pat| ensures a[k] == b[k] {
          assert q[j + k] == p[i + j + k];
        }
        assert a == b;
      }
    }
  }
}
