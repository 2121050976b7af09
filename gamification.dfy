// The rewards panel of components/GamificationPanel.tsx: what it reads out of the
// generated text (a total, a badge, a rubric of scoring criteria) and the award state
// the teacher changes by ticking criteria and finalising.
// Every regex below is used without the `g` flag, so it acts at its leftmost match.
module Gamification {
  import opened Strings

  datatype Criterion = Criterion(category: string, points: nat)
  datatype Badge = Badge(name: string, description: string)

  /** The leftmost position in `i..n` where `p` holds: where a non-global regex matches. */
  function FirstAt(n: nat, i: nat, p: nat -> bool): (r: Option<nat>)
    requires i <= n
    ensures r.Some? ==> i <= r.value <= n && p(r.value)
    ensures r.Some? ==> forall k :: i <= k < r.value ==> !p(k)
    ensures r.None? ==> forall k :: i <= k <= n ==> !p(k)
    decreases n - i
  {
    if p(i) then Some(i) else if i == n then None else FirstAt(n, i + 1, p)
  }

  /** The search from 0 finds `i` when `p` holds there and nowhere before. */
  lemma FirstAtIs(n: nat, p: nat -> bool, i: nat)
    requires i <= n && p(i) && forall k :: 0 <= k < i ==> !p(k)
    ensures FirstAt(n, 0, p) == Some(i)
  {
  }

  // ----- the announced total: /(?:totaling|total of|Total:)\s*(\d+)\s*points/i -----

  /** One of the three keywords, `n` characters long, starts at `i` in any letter case. */
  predicate TotalKeyword(s: string, i: nat, n: nat)
    requires i <= |s|
  {
    (n == 8 && (StartsWithCI(s[i..], "totaling") || StartsWithCI(s[i..], "total of"))) ||
    (n == 6 && StartsWithCI(s[i..], "total:"))
  }

  /** The length of the keyword at `i`, or 0 when none of the three starts there. */
  function KeywordLength(s: string, i: nat): (n: nat)
    requires i <= |s|
    ensures n != 0 ==> TotalKeyword(s, i, n)
    ensures n == 0 ==> !TotalKeyword(s, i, 8) && !TotalKeyword(s, i, 6)
  {
    if StartsWithCI(s[i..], "totaling") then 8
    else if StartsWithCI(s[i..], "total of") then 8
    else if StartsWithCI(s[i..], "total:") then 6
    else 0
  }

  /** The sixth letter tells the keywords apart, so their length is determined. */
  lemma KeywordLengthIs(s: string, i: nat, n: nat)
    requires i <= |s| && TotalKeyword(s, i, n)
    ensures KeywordLength(s, i) == n
  {
    if n == 6 {
      assert Upper(s[i..][5]) == ':';
    }
  }

  /** From `i`: a keyword `n` long, white space, the digits `d..e`, white space, `points`. */
  predicate TotalShape(s: string, i: nat, n: nat, d: nat, e: nat)
    requires i <= |s|
  {
    TotalKeyword(s, i, n) && i + n <= d < e <= |s| && SpacesIn(s, i + n, d) && DigitsIn(s, d, e) &&
    StartsWithCI(s[SkipSpace(s, e)..], "points")
  }

  /**
   * The digits of a total phrase that starts at `i`, as the pair of their bounds. The
   * three alternatives differ in their sixth letter, so at most one applies. Neither `\s*`
   * nor `\d+` can give anything back: the next token cannot start with what they consumed.
   */
  function TotalAt(s: string, i: nat): (r: Option<(nat, nat)>)
    requires i <= |s|
    ensures r.Some? ==> TotalShape(s, i, 8, r.value.0, r.value.1) || TotalShape(s, i, 6, r.value.0, r.value.1)
  {
    var lead := KeywordLength(s, i);
    if lead == 0 then None
    else
      var d := SkipSpace(s, i + lead);
      var e := DigitsEnd(s, d);
      if d < e && StartsWithCI(s[SkipSpace(s, e)..], "points") then Some((d, e)) else None
  }

  /** Every way the pattern can match at `i` is the one `TotalAt` finds. */
  lemma TotalAtShape(s: string, i: nat, n: nat, d: nat, e: nat)
    requires i <= |s| && TotalShape(s, i, n, d, e)
    ensures TotalAt(s, i) == Some((d, e))
  {
    KeywordLengthIs(s, i, n);
    SkipSpaceTo(s, i + n, d);
    var f := SkipSpace(s, e);
    assert Upper(s[f]) == 'P';
    DigitsEndTo(s, d, e);
  }

  /** Lines 24-25: the number of the leftmost total phrase, or 0 when there is none. */
  function TotalPoints(content: string): (r: nat)
    ensures (forall i :: 0 <= i <= |content| ==> TotalAt(content, i).None?) ==> r == 0
  {
    match FirstAt(|content|, 0, (i: nat) => i <= |content| && TotalAt(content, i).Some?)
    case None => 0
    case Some(i) =>
      var span := TotalAt(content, i).value;
      DigitsValue(content[span.0..span.1])
  }

  /** The total is read from the leftmost position where the phrase matches. */
  lemma TotalPointsAt(content: string, i: nat, d: nat, e: nat)
    requires i <= |content| && TotalAt(content, i).Some?
    requires TotalAt(content, i).value.0 == d && TotalAt(content, i).value.1 == e
    requires forall k :: 0 <= k < i ==> TotalAt(content, k).None?
    ensures d <= e <= |content| && TotalPoints(content) == DigitsValue(content[d..e])
  {
    var p := (k: nat) => k <= |content| && TotalAt(content, k).Some?;
    FirstAtIs(|content|, p, i);
    assert FirstAt(|content|, 0, p) == Some(i);
  }

  // ----- the badge: /\*\*Badge Unlocked:\*\* \*\*(.*?)\*\*/ -----

  const BadgeMarker := "**Badge Unlocked:** **"
  const DefaultDescription := "Great work on this exercise!"

  /** Where the lazy name of a badge match starting at `i` ends: the first `**` on the line. */
  function BadgeAt(s: string, i: nat): (r: Option<nat>)
    requires i <= |s|
    ensures r.Some? ==> StartsWith(s[i..], BadgeMarker) && i + |BadgeMarker| <= r.value
    ensures r.Some? ==> Occurs(s, "**", r.value) && NoLineTerm(s[i + |BadgeMarker|..r.value])
    ensures r.Some? ==> forall p :: i + |BadgeMarker| <= p < r.value ==> !Occurs(s, "**", p)
  {
    if StartsWith(s[i..], BadgeMarker) then FindOnLine(s, i + |BadgeMarker|, "**") else None
  }

  /** `undefined` or `""` is falsy: the default then; otherwise the first line of the trimmed text without a leading `- `. */
  function Description(piece: string): (r: string)
    ensures NoChar(r, '\n')
    ensures piece == [] ==> r == DefaultDescription
    ensures piece != [] ==> var t := DropDash(Trim(piece)); |r| <= |t| && r == t[..|r|] && (|r| == |t| || t[|r|] == '\n')
    ensures piece != [] && AllSpace(piece) ==> r == []
  {
    if piece == [] then DefaultDescription
    else if AllSpace(piece) then
      TrimAllSpace(piece);
      FirstLine(DropDash(Trim(piece)))
    else FirstLine(DropDash(Trim(piece)))
  }

  /** `t.split('\n')[0]`: the text up to its first line break. */
  function FirstLine(t: string): (r: string)
    ensures NoChar(r, '\n') && |r| <= |t| && r == t[..|r|]
    ensures |r| == |t| || t[|r|] == '\n'
  {
    var first := Split(t, "\n")[0];
    SplitPiecesFree(t, "\n");
    NotContainedNoChar(first, '\n');
    if Contains(t, "\n") then
      SplitContains(t, "\n");
      var i := IndexOf(t, "\n");
      assert t[i] == t[i..i + 1][0];
      first
    else
      SplitAbsent(t, "\n");
      assert t[..|t|] == t;
      first
  }

  /** `.replace(/^- /, '')` without the `m` flag: only at the very start. */
  function DropDash(t: string): (r: string)
    ensures StartsWith(t, "- ") ==> r == t[2..]
    ensures !StartsWith(t, "- ") ==> r == t
  {
    if StartsWith(t, "- ") then t[2..] else t
  }

  lemma NotContainedNoChar(t: string, c: char)
    requires !Contains(t, [c])
    ensures NoChar(t, c)
  {
    forall i | 0 <= i < |t| ensures t[i] != c {
      assert !Occurs(t, [c], i);
      assert t[i..i + 1] == [t[i]];
    }
  }

  /** The leftmost badge match, as the start of the marker, the end of the name and the end of the match. */
  function BadgeMatch(content: string): (r: Option<(nat, nat, nat)>)
    ensures r.Some? ==> r.value.0 <= |content| && BadgeAt(content, r.value.0) == Some(r.value.1)
    ensures r.Some? ==> r.value.2 == r.value.1 + 2
    ensures r.Some? ==> forall k :: 0 <= k < r.value.0 ==> BadgeAt(content, k).None?
    ensures r.None? ==> forall k :: 0 <= k <= |content| ==> BadgeAt(content, k).None?
  {
    var p := (i: nat) => i <= |content| && BadgeAt(content, i).Some?;
    assert forall k: nat :: p(k) == (k <= |content| && BadgeAt(content, k).Some?);
    match FirstAt(|content|, 0, p)
    case None => None
    case Some(i) => var j := BadgeAt(content, i).value; Some((i, j, j + 2))
  }

  /** Lines 27-34: the badge of the leftmost marker match; its description comes from `content.split(match)[1]`. */
  function FindBadge(content: string): Option<Badge> {
    match BadgeMatch(content)
    case None => None
    case Some(m) => Some(BadgeOfMatch(content, m.0, m.1, m.2))
  }

  /** The badge of a match from `i` to the closing `**` at `j`, ending at `e`: its name, and the description after the match text. */
  function BadgeOfMatch(content: string, i: nat, j: nat, e: nat): Badge
    requires i + |BadgeMarker| <= j && e == j + 2 && e <= |content|
  {
    Badge(content[i + |BadgeMarker|..j], Description(SecondSplit(content, content[i..e])))
  }

  /** A slice of a window is a slice of the text. */
  lemma InWindow(c: string, a: nat, n: nat, x: nat, y: nat)
    requires a + n <= |c| && x <= y <= n
    ensures c[a + x..a + y] == c[a..a + n][x..y]
  {
    var u, v := c[a + x..a + y], c[a..a + n][x..y];
    forall k | 0 <= k < y - x ensures u[k] == v[k] {
      assert u[k] == c[a + x + k];
    }
  }

  /** Two equal windows agree on every slice at the same offsets. */
  lemma SameText(c: string, a: nat, b: nat, n: nat, x: nat, y: nat)
    requires a + n <= |c| && b + n <= |c| && c[a..a + n] == c[b..b + n] && x <= y <= n
    ensures c[a + x..a + y] == c[b + x..b + y]
  {
    InWindow(c, a, n, x, y);
    InWindow(c, b, n, x, y);
  }

  /** No `**` starts in a stretch of one window when none starts in the same stretch of an equal window. */
  lemma NoCloseAgain(c: string, a: nat, b: nat, n: nat, lo: nat, hi: nat)
    requires a + n <= |c| && b + n <= |c| && c[a..a + n] == c[b..b + n] && lo <= hi && hi + 2 <= n
    requires forall p :: b + lo <= p < b + hi ==> !Occurs(c, "**", p)
    ensures forall p :: a + lo <= p < a + hi ==> !Occurs(c, "**", p)
  {
    forall p | a + lo <= p < a + hi ensures !Occurs(c, "**", p) {
      var x := p - a;
      assert !Occurs(c, "**", b + x);
      SameText(c, a, b, n, x, x + 2);
    }
  }

  /** What a badge match from `i` to the closing `**` at `j` consists of, position by position. */
  predicate BadgeShape(c: string, i: nat, j: nat) {
    i + |BadgeMarker| <= j && j + 2 <= |c| &&
    c[i..i + |BadgeMarker|] == BadgeMarker && c[j..j + 2] == "**" &&
    NoLineTerm(c[i + |BadgeMarker|..j]) &&
    forall p :: i + |BadgeMarker| <= p < j ==> !Occurs(c, "**", p)
  }

  lemma BadgeShapeOf(c: string, i: nat, j: nat)
    requires i <= |c| && BadgeAt(c, i) == Some(j)
    ensures BadgeShape(c, i, j)
  {
    assert c[i..][..|BadgeMarker|] == c[i..i + |BadgeMarker|];
  }

  lemma BadgeAtOfShape(c: string, i: nat, j: nat)
    requires BadgeShape(c, i, j)
    ensures BadgeAt(c, i) == Some(j)
  {
    assert c[i..][..|BadgeMarker|] == c[i..i + |BadgeMarker|];
    FindOnLineAt(c, i + |BadgeMarker|, "**", j);
  }

  /** Where the whole text of a badge match occurs again, it has the same shape. */
  lemma ShapeAgain(c: string, i: nat, j: nat, i2: nat)
    requires BadgeShape(c, i, j) && Occurs(c, c[i..j + 2], i2)
    ensures BadgeShape(c, i2, i2 + (j - i))
  {
    var n := j + 2 - i;
    var m := |BadgeMarker|;
    assert c[i2..i2 + n] == c[i..i + n];
    SameText(c, i2, i, n, 0, m);
    SameText(c, i2, i, n, j - i, n);
    SameText(c, i2, i, n, m, j - i);
    NoCloseAgain(c, i2, i, n, m, j - i);
  }

  /** Wherever the text of a badge match occurs again, the badge pattern matches there as well. */
  lemma MatchTextMatchesAgain(c: string, i: nat, j: nat, i2: nat)
    requires BadgeShape(c, i, j)
    ensures Occurs(c, c[i..j + 2], i2) ==> BadgeAt(c, i2) == Some(i2 + (j - i))
  {
    if Occurs(c, c[i..j + 2], i2) {
      ShapeAgain(c, i, j, i2);
      BadgeAtOfShape(c, i2, i2 + (j - i));
    }
  }

  /** The text of a badge match with no match before it occurs first where it was matched. */
  lemma FirstMatchFirstOccurs(c: string, i: nat, j: nat, e: nat)
    requires BadgeShape(c, i, j) && e == j + 2
    requires forall k :: 0 <= k < i ==> BadgeAt(c, k).None?
    ensures IndexOf(c, c[i..e]) == i
  {
    var whole := c[i..e];
    forall i2 | 0 <= i2 < i ensures !Occurs(c, whole, i2) {
      MatchTextMatchesAgain(c, i, j, i2);
    }
    IndexOfAt(c, whole, i);
  }

  /** The text of the leftmost badge match, from `i` to the closing `**` at `j`, ending at `e`, occurs first where it was matched. */
  lemma MatchTextFirstAt(c: string, i: nat, j: nat, e: nat)
    requires BadgeMatch(c).Some? && BadgeMatch(c).value.0 == i && BadgeMatch(c).value.1 == j && BadgeMatch(c).value.2 == e
    ensures e <= |c| && IndexOf(c, c[i..e]) == i
  {
    BadgeShapeOf(c, i, j);
    FirstMatchFirstOccurs(c, i, j, e);
  }

  /** `FindBadge` reads the badge of its leftmost match, from `i` to the closing `**` at `j`, ending at `e`. */
  lemma FindBadgeOfMatch(c: string, i: nat, j: nat, e: nat)
    requires BadgeMatch(c).Some? && BadgeMatch(c).value.0 == i && BadgeMatch(c).value.1 == j && BadgeMatch(c).value.2 == e
    ensures i + |BadgeMarker| <= j && e <= |c|
    ensures FindBadge(c) == Some(BadgeOfMatch(c, i, j, e))
  {
  }

  /** When the match text first occurs where it was matched, the description comes from what follows the match. */
  lemma BadgeOfFirstMatch(c: string, i: nat, j: nat, e: nat)
    requires i + |BadgeMarker| <= j && e == j + 2 && e <= |c| && IndexOf(c, c[i..e]) == i
    ensures BadgeOfMatch(c, i, j, e) == Badge(c[i + |BadgeMarker|..j], Description(UpTo(c[e..], c[i..e])))
  {
    SecondSplitAfter(c, c[i..e], i, e);
  }

  /**
   * The badge of the leftmost match, from `i` to the closing `**` at `j`, ending at `e`: its name
   * is the text between the marker and `**`, its description is read from the text after the match
   * up to the match text's next occurrence.
   */
  lemma BadgeFromMatch(c: string, i: nat, j: nat, e: nat)
    requires BadgeMatch(c).Some? && BadgeMatch(c).value.0 == i && BadgeMatch(c).value.1 == j && BadgeMatch(c).value.2 == e
    ensures i + |BadgeMarker| <= j && e <= |c|
    ensures FindBadge(c) == Some(Badge(c[i + |BadgeMarker|..j], Description(UpTo(c[e..], c[i..e]))))
  {
    MatchTextFirstAt(c, i, j, e);
    FindBadgeOfMatch(c, i, j, e);
    BadgeOfFirstMatch(c, i, j, e);
  }

  /** A badge exists exactly when the marker is followed on its line by a closing `**`. */
  lemma BadgeExists(c: string)
    ensures FindBadge(c).Some? <==> exists i :: 0 <= i <= |c| && BadgeAt(c, i).Some?
  {
  }

  // ----- the rubric line: /\*\*Point System:\*\*(.*)/i -----

  const PointSystemMarker := "**Point System:**"

  /** The marker starts at `i` in any letter case. */
  predicate PointSystemAt(content: string, i: nat)
    requires i <= |content|
  {
    StartsWithCI(content[i..], PointSystemMarker)
  }

  /** Line 37: there is a line exactly when the marker occurs somewhere. */
  function PointSystemLine(content: string): (r: Option<string>)
    ensures r.None? <==> forall i :: 0 <= i <= |content| ==> !PointSystemAt(content, i)
    ensures r.Some? ==> NoLineTerm(r.value)
  {
    var p := (i: nat) => i <= |content| && PointSystemAt(content, i);
    assert forall i: nat :: p(i) == (i <= |content| && PointSystemAt(content, i));
    match FirstAt(|content|, 0, p)
    case None => None
    case Some(i) =>
      var b := i + |PointSystemMarker|;
      Some(content[b..LineEnd(content, b)])
  }

  /** The line is the rest of the line after the leftmost marker, which ends at `b`. */
  lemma PointSystemLineAt(content: string, i: nat, b: nat)
    requires i <= |content| && PointSystemAt(content, i) && b == i + |PointSystemMarker|
    requires forall k :: 0 <= k < i ==> !PointSystemAt(content, k)
    ensures b <= |content| && PointSystemLine(content) == Some(content[b..LineEnd(content, b)])
  {
    var p := (k: nat) => k <= |content| && PointSystemAt(content, k);
    FirstAtIs(|content|, p, i);
    assert FirstAt(|content|, 0, p) == Some(i);
  }

  // Line 40: .replace(/\(e\.g\.,(.*?)\)/i, '$1')

  /**
   * Where the lazy group of an `(e.g.,` match at `i` ends: the first `)` after the opening,
   * provided it comes before the end of the line.
   */
  function ExampleAt(t: string, i: nat): (r: Option<nat>)
    requires i <= |t|
    ensures r.Some? ==> StartsWithCI(t[i..], "(e.g.,")
    ensures r.Some? ==> i + 6 <= r.value < LineEnd(t, i + 6) && t[r.value] == ')'
    ensures r.Some? ==> forall k :: i + 6 <= k < r.value ==> t[k] != ')'
    ensures r.None? && StartsWithCI(t[i..], "(e.g.,") ==> forall k :: i + 6 <= k < LineEnd(t, i + 6) ==> t[k] != ')'
  {
    if StartsWithCI(t[i..], "(e.g.,") then
      FindCharOnLine(t, i + 6, ')');
      FindOnLine(t, i + 6, ")")
    else None
  }

  /** The first `(e.g., x)` becomes `x`; a text without one is left alone. */
  function UnwrapExample(t: string): (r: string)
    ensures r == t <==> forall i :: 0 <= i <= |t| ==> ExampleAt(t, i).None?
  {
    var p := (i: nat) => i <= |t| && ExampleAt(t, i).Some?;
    assert forall i: nat :: p(i) == (i <= |t| && ExampleAt(t, i).Some?);
    match FirstAt(|t|, 0, p)
    case None => t
    case Some(i) =>
      var j := ExampleAt(t, i).value;
      t[..i] + t[i + 6..j] + t[j + 1..]
  }

  /** At the leftmost `(e.g.,` closed at `j` the opening and the closing parenthesis are dropped. */
  lemma UnwrapExampleAt(t: string, i: nat, j: nat)
    requires i <= |t| && ExampleAt(t, i).Some? && ExampleAt(t, i).value == j
    requires forall k :: 0 <= k < i ==> ExampleAt(t, k).None?
    ensures i + 6 <= j < |t| && UnwrapExample(t) == t[..i] + t[i + 6..j] + t[j + 1..]
  {
    var p := (k: nat) => k <= |t| && ExampleAt(t, k).Some?;
    FirstAtIs(|t|, p, i);
    assert FirstAt(|t|, 0, p) == Some(i);
  }

  // Line 41: .replace(/,?\s*totaling.*$/i, '') -- `$` without the `m` flag is the end of the text

  predicate TotalingWordAt(t: string, w: nat)
    requires w <= |t|
  {
    StartsWithCI(t[w..], "totaling") && LineEnd(t, w + 8) == |t|
  }

  /** The greedy `,?` is tried first; without it `\s*` cannot pass a comma. */
  predicate TotalingAt(t: string, i: nat)
    requires i <= |t|
  {
    (i < |t| && t[i] == ',' && TotalingWordAt(t, SkipSpace(t, i + 1))) || TotalingWordAt(t, SkipSpace(t, i))
  }

  /** A tail starts before the end of the text. */
  lemma TotalingBeforeEnd(t: string, i: nat)
    requires i <= |t| && TotalingAt(t, i)
    ensures i < |t|
  {
  }

  /** Everything from the first `, totaling` tail to the end is cut; a text without one is left alone. */
  function CutTotaling(t: string): (r: string)
    ensures r == t <==> forall i :: 0 <= i <= |t| ==> !TotalingAt(t, i)
    ensures r != t ==> |r| < |t| && r == t[..|r|] && TotalingAt(t, |r|)
    ensures r != t ==> forall k :: 0 <= k < |r| ==> !TotalingAt(t, k)
  {
    var p := (i: nat) => i <= |t| && TotalingAt(t, i);
    assert forall i: nat :: p(i) == (i <= |t| && TotalingAt(t, i));
    match FirstAt(|t|, 0, p)
    case None => t
    case Some(i) =>
      TotalingBeforeEnd(t, i);
      t[..i]
  }

  // Line 42: .replace(/etc\./i, '')

  /** `etc.` starts at `i` in any letter case. */
  predicate EtcAt(t: string, i: nat)
    requires i <= |t|
  {
    StartsWithCI(t[i..], "etc.")
  }

  /** The first `etc.` is removed; a text without one is left alone. */
  function RemoveEtc(t: string): (r: string)
    ensures r == t <==> forall i :: 0 <= i <= |t| ==> !EtcAt(t, i)
  {
    var p := (i: nat) => i <= |t| && EtcAt(t, i);
    assert forall i: nat :: p(i) == (i <= |t| && EtcAt(t, i));
    match FirstAt(|t|, 0, p)
    case None => t
    case Some(i) => t[..i] + t[i + 4..]
  }

  /** The leftmost `etc.` is the one removed. */
  lemma RemoveEtcAt(t: string, i: nat)
    requires i <= |t| && EtcAt(t, i) && forall k :: 0 <= k < i ==> !EtcAt(t, k)
    ensures i + 4 <= |t| && RemoveEtc(t) == t[..i] + t[i + 4..]
  {
    var p := (k: nat) => k <= |t| && EtcAt(t, k);
    FirstAtIs(|t|, p, i);
    assert FirstAt(|t|, 0, p) == Some(i);
  }

  /** Lines 39-43. */
  function CriteriaText(line: string): string {
    Trim(RemoveEtc(CutTotaling(UnwrapExample(line))))
  }

  // Line 45: .split(/,|\sand\s/) -- `and` is matched in lower case only

  /** The length of a separator at `q`: a comma, or ` and ` between two white-space characters. */
  function SeparatorAt(t: string, q: nat): (r: Option<nat>)
    requires q <= |t|
    ensures r.Some? ==> 0 < r.value && q + r.value <= |t|
  {
    if q < |t| && t[q] == ',' then Some(1)
    else if q + 5 <= |t| && IsSpace(t[q]) && t[q + 1..q + 4] == "and" && IsSpace(t[q + 4]) then Some(5)
    else None
  }

  /** A separator as it appears in the text: a comma, or `and` between two white-space characters. */
  predicate IsSeparator(u: string) {
    u == "," || (|u| == 5 && IsSpace(u[0]) && u[1..4] == "and" && IsSpace(u[4]))
  }

  /** No separator starts anywhere in `c`. */
  predicate NoSeparator(c: string) {
    forall q :: 0 <= q <= |c| ==> SeparatorAt(c, q).None?
  }

  /** The leftmost separator, from `q` to `e`, or nothing when the text has none. */
  function NextSeparator(t: string): (r: Option<(nat, nat)>)
    ensures r.Some? ==> var (q, e) := r.value;
      q < e <= |t| && SeparatorAt(t, q).Some? && e == q + SeparatorAt(t, q).value &&
      forall k :: 0 <= k < q ==> SeparatorAt(t, k).None?
    ensures r.None? ==> forall k :: 0 <= k <= |t| ==> SeparatorAt(t, k).None?
  {
    var p := (q: nat) => q <= |t| && SeparatorAt(t, q).Some?;
    assert forall q: nat :: p(q) == (q <= |t| && SeparatorAt(t, q).Some?);
    match FirstAt(|t|, 0, p)
    case None => None
    case Some(q) => Some((q, q + SeparatorAt(t, q).value))
  }

  /** The clauses between the leftmost non-overlapping separators, in order; none holds a separator. */
  function SplitClauses(t: string): (r: seq<string>)
    ensures |r| >= 1
    ensures forall i :: 0 <= i < |r| ==> NoSeparator(r[i]) && NoChar(r[i], ',')
    decreases |t|
  {
    match NextSeparator(t)
    case None =>
      NoSeparatorBefore(t, |t|);
      assert t[..|t|] == t;
      [t]
    case Some((q, e)) =>
      NoSeparatorBefore(t, q);
      var rest := SplitClauses(t[e..]);
      assert forall i :: 0 <= i < |rest| ==> ([t[..q]] + rest)[i + 1] == rest[i];
      [t[..q]] + rest
  }

  /** The separators the clauses were split at, in order. */
  function SeparatorsOf(t: string): (r: seq<string>)
    ensures forall i :: 0 <= i < |r| ==> IsSeparator(r[i])
    decreases |t|
  {
    match NextSeparator(t)
    case None => []
    case Some((q, e)) =>
      var sep := t[q..e];
      SeparatorText(t, q);
      var rest := SeparatorsOf(t[e..]);
      assert forall i :: 0 <= i < |rest| ==> ([sep] + rest)[i + 1] == rest[i];
      [sep] + rest
  }

  /** What `SeparatorAt` finds is a separator. */
  lemma SeparatorText(t: string, q: nat)
    requires q <= |t| && SeparatorAt(t, q).Some?
    ensures IsSeparator(t[q..q + SeparatorAt(t, q).value])
  {
    var sep := t[q..q + SeparatorAt(t, q).value];
    if SeparatorAt(t, q).value == 1 {
      assert sep == [t[q]];
    } else {
      assert t[q + 1..q + 4] == "and";
      assert sep[1..4] == "and" by {
        forall k | 0 <= k < 3 ensures sep[1 + k] == "and"[k] {
          assert sep[1 + k] == t[q + 1 + k] == t[q + 1..q + 4][k];
        }
      }
    }
  }

  /** The clauses interleaved with the separators between them. */
  function Joined(clauses: seq<string>, seps: seq<string>): string
    requires |clauses| == |seps| + 1
    decreases |seps|
  {
    if seps == [] then clauses[0] else clauses[0] + seps[0] + Joined(clauses[1..], seps[1..])
  }

  /** Splitting loses nothing: the clauses joined by the separators give back the text. */
  lemma {:induction false} SplitClausesRejoin(t: string)
    ensures |SplitClauses(t)| == |SeparatorsOf(t)| + 1
    ensures Joined(SplitClauses(t), SeparatorsOf(t)) == t
    decreases |t|
  {
    if NextSeparator(t).Some? {
      var q, e := NextSeparator(t).value.0, NextSeparator(t).value.1;
      ClausesStep(t, q, e);
      SeparatorsStep(t, q, e);
      var u := t[e..];
      SplitClausesRejoin(u);
      JoinedCons(t[..q], SplitClauses(u), t[q..e], SeparatorsOf(u));
      assert t == t[..q] + t[q..e] + u;
    }
  }

  /** At the leftmost separator, from `q` to `e`, the first clause ends and the rest is split on. */
  lemma ClausesStep(t: string, q: nat, e: nat)
    requires NextSeparator(t).Some? && NextSeparator(t).value.0 == q && NextSeparator(t).value.1 == e
    ensures q <= e <= |t|
    ensures SplitClauses(t) == [t[..q]] + SplitClauses(t[e..])
  {
  }

  /** At the leftmost separator, from `q` to `e`, it is the first one split at. */
  lemma SeparatorsStep(t: string, q: nat, e: nat)
    requires NextSeparator(t).Some? && NextSeparator(t).value.0 == q && NextSeparator(t).value.1 == e
    ensures q <= e <= |t|
    ensures SeparatorsOf(t) == [t[q..e]] + SeparatorsOf(t[e..])
  {
  }

  lemma JoinedCons(c: string, cs: seq<string>, sep: string, seps: seq<string>)
    requires |cs| == |seps| + 1
    ensures Joined([c] + cs, [sep] + seps) == c + sep + Joined(cs, seps)
  {
    assert ([c] + cs)[1..] == cs && ([sep] + seps)[1..] == seps;
  }

  /** A text with no separator before `q` gives a first clause without one. */
  lemma NoSeparatorBefore(t: string, q: nat)
    requires q <= |t| && forall i :: 0 <= i < q ==> SeparatorAt(t, i).None?
    ensures NoSeparator(t[..q]) && NoChar(t[..q], ',')
  {
    var c := t[..q];
    forall i | 0 <= i <= q ensures SeparatorAt(c, i).None? {
      if i < q {
        assert SeparatorAt(t, i).None?;
        if i + 5 <= q {
          assert c[i + 1..i + 4] == t[i + 1..i + 4];
        }
      }
    }
    forall i | 0 <= i < q ensures c[i] != ',' {
      assert SeparatorAt(c, i).None?;
    }
  }

  // Line 49: /(.*?)(?:\s*\(|\s*:)?\s*(\d+)\s*p(?:oin)?ts?/i

  /**
   * Where the digits must begin when the category ends at `k`: after white space and at
   * most one `(` or `:`. The optional group is tried first and, if it matched, dropping it
   * leaves a `(` or `:` where a digit is needed, so the position is determined.
   */
  function DigitsFrom(t: string, k: nat): (d: nat)
    requires k <= |t|
    ensures k <= SkipSpace(t, k) <= d <= |t|
  {
    var w := SkipSpace(t, k);
    if w < |t| && (t[w] == '(' || t[w] == ':') then SkipSpace(t, w + 1) else w
  }

  /** `p(?:oin)?t` in any letter case; the final `s?` never decides a match. */
  predicate UnitAt(t: string, f: nat)
    requires f <= |t|
  {
    StartsWithCI(t[f..], "pt") || StartsWithCI(t[f..], "point")
  }

  /**
   * From `k`: white space up to `w`, then either the digits at once (`w == d`) or one `(` or
   * `:` and white space up to `d`; then the digits `d..e`, white space and the unit.
   */
  predicate QuantityShape(t: string, k: nat, w: nat, d: nat, e: nat)
    requires k <= w <= d < e <= |t|
  {
    SpacesIn(t, k, w) &&
    (w == d || ((t[w] == '(' || t[w] == ':') && SpacesIn(t, w + 1, d))) &&
    DigitsIn(t, d, e) && UnitAt(t, SkipSpace(t, e))
  }

  /** The digits of a quantity that follows a category ending at `k`. */
  function QuantityAt(t: string, k: nat): (r: Option<(nat, nat)>)
    requires k <= |t|
    ensures r.Some? ==> k <= SkipSpace(t, k) <= r.value.0 < r.value.1 <= |t|
    ensures r.Some? ==> QuantityShape(t, k, SkipSpace(t, k), r.value.0, r.value.1)
  {
    var d := DigitsFrom(t, k);
    var e := DigitsEnd(t, d);
    if d < e && UnitAt(t, SkipSpace(t, e)) then Some((d, e)) else None
  }

  /** Every way the pattern can read a quantity after `k` is the one `QuantityAt` finds. */
  lemma QuantityAtShape(t: string, k: nat, w: nat, d: nat, e: nat)
    requires k <= w <= d < e <= |t| && QuantityShape(t, k, w, d, e)
    ensures QuantityAt(t, k) == Some((d, e))
  {
    SkipSpaceTo(t, k, w);
    if w < d {
      SkipSpaceTo(t, w + 1, d);
    }
    assert DigitsFrom(t, k) == d;
    var f := SkipSpace(t, e);
    assert Upper(t[f]) == 'P';
    DigitsEndTo(t, d, e);
  }

  /** The lazy category starting at `st` ends at the first `k` on its line where a quantity follows. */
  function CategoryEnd(t: string, st: nat): (r: Option<nat>)
    requires st <= |t|
    ensures r.Some? ==> st <= r.value <= LineEnd(t, st) && QuantityAt(t, r.value).Some?
    ensures r.Some? ==> forall k :: st <= k < r.value ==> QuantityAt(t, k).None?
    ensures r.None? ==> forall k :: st <= k <= LineEnd(t, st) ==> QuantityAt(t, k).None?
  {
    var p := (k: nat) => k <= |t| && QuantityAt(t, k).Some?;
    assert forall k: nat :: p(k) == (k <= |t| && QuantityAt(t, k).Some?);
    FirstAt(LineEnd(t, st), st, p)
  }

  /** The criterion a clause states, if any: the trimmed category and the number of points. */
  function CriterionOf(part: string): (r: Option<Criterion>)
    ensures r.Some? ==> r.value.category == [] || (!IsSpace(r.value.category[0]) && !IsSpace(r.value.category[|r.value.category| - 1]))
  {
    match FirstAt(|part|, 0, (st: nat) => st <= |part| && CategoryEnd(part, st).Some?)
    case None => None
    case Some(st) =>
      var k := CategoryEnd(part, st).value;
      var span := QuantityAt(part, k).value;
      Some(Criterion(Trim(part[st..k]), DigitsValue(part[span.0..span.1])))
  }

  /** No quantity can follow a category ending inside a text without digits, `(` or `:` that ends in a non-space. */
  lemma NoQuantityBefore(t: string, n: nat)
    requires 0 < n <= |t| && !IsSpace(t[n - 1])
    requires forall i :: 0 <= i < n ==> !IsDigit(t[i]) && t[i] != '(' && t[i] != ':'
    ensures forall k :: 0 <= k < n ==> QuantityAt(t, k).None?
  {
    forall k | 0 <= k < n ensures QuantityAt(t, k).None? {
      var w := SkipSpace(t, k);
      assert w < n;
    }
  }

  /** ` points` at `e`: the white space is skipped and the unit follows. */
  lemma PointsAt(t: string, e: nat)
    requires e + 7 <= |t| && t[e] == ' ' && t[e + 1..e + 7] == "points"
    ensures SkipSpace(t, e) == e + 1 && UnitAt(t, e + 1)
  {
    var u := t[e + 1..e + 7];
    assert t[e + 1] == u[0];
    forall i | 0 <= i < 5 ensures t[e + 1..][i] == "point"[i] {
      assert t[e + 1..][i] == u[i];
    }
  }

  /** A run of digits from `d` that stops at a non-digit at `e` ends there. */
  lemma DigitsRunEnd(t: string, d: nat, e: nat)
    requires d <= e < |t| && !IsDigit(t[e])
    requires forall i :: d <= i < e ==> IsDigit(t[i])
    ensures DigitsEnd(t, d) == e
  {
  }

  /** After `: ` the digits begin. */
  lemma ColonDigitsStart(t: string, n: nat)
    requires n + 2 < |t| && t[n] == ':' && t[n + 1] == ' ' && IsDigit(t[n + 2])
    ensures DigitsFrom(t, n) == n + 2
  {
    assert SkipSpace(t, n) == n;
    assert SkipSpace(t, n + 2) == n + 2;
  }

  /** `: N points` at `n` is a quantity. */
  lemma ColonQuantity(t: string, n: nat, e: nat)
    requires n + 3 <= e && e + 7 <= |t|
    requires t[n] == ':' && t[n + 1] == ' ' && t[e] == ' ' && t[e + 1..e + 7] == "points"
    requires forall i :: n + 2 <= i < e ==> IsDigit(t[i])
    ensures QuantityAt(t, n) == Some((n + 2, e))
  {
    ColonDigitsStart(t, n);
    DigitsRunEnd(t, n + 2, e);
    PointsAt(t, e);
  }

  /**
   * `t` reads `category: N points` with the colon at `n` and the digits up to `e`, and the
   * category has no digit, `(`, `:` or line break and does not end in white space.
   */
  predicate ColonAt(t: string, n: nat, e: nat) {
    0 < n && n + 3 <= e && e + 7 <= |t| && !IsSpace(t[n - 1]) &&
    (forall i :: 0 <= i < n ==> !IsDigit(t[i]) && t[i] != '(' && t[i] != ':' && !IsLineTerm(t[i])) &&
    t[n] == ':' && t[n + 1] == ' ' && t[e] == ' ' && t[e + 1..e + 7] == "points" &&
    (forall i :: n + 2 <= i < e ==> IsDigit(t[i]))
  }

  /** The lazy category of `cat: N points` ends right before the colon. */
  lemma ColonCategoryEnd(t: string, n: nat, e: nat)
    requires ColonAt(t, n, e)
    ensures CategoryEnd(t, 0) == Some(n) && QuantityAt(t, n) == Some((n + 2, e))
  {
    NoQuantityBefore(t, n);
    ColonQuantity(t, n, e);
    NoBreakBefore(t, n);
    FirstQuantity(t, n);
  }

  /** A line that has no break before `n` reaches at least `n`. */
  lemma NoBreakBefore(t: string, n: nat)
    requires n <= |t| && forall i :: 0 <= i < n ==> !IsLineTerm(t[i])
    ensures LineEnd(t, 0) >= n
  {
  }

  /** The lazy category ends at the first position of the line where a quantity follows. */
  lemma FirstQuantity(t: string, n: nat)
    requires n <= LineEnd(t, 0) && QuantityAt(t, n).Some?
    requires forall k :: 0 <= k < n ==> QuantityAt(t, k).None?
    ensures CategoryEnd(t, 0) == Some(n)
  {
  }

  /** When the lazy category from the first position ends at `k`, that match is the criterion. */
  lemma CriterionFromStart(t: string, k: nat, d: nat, e: nat, cat: string, digits: string)
    requires CategoryEnd(t, 0) == Some(k) && QuantityAt(t, k) == Some((d, e))
    requires t[0..k] == cat && t[d..e] == digits
    ensures CriterionOf(t) == Some(Criterion(Trim(cat), DigitsValue(digits)))
  {
  }

  /** Where the parts of `category: N points` sit in the clause. */
  lemma ColonShape(t: string, cat: string, digits: string)
    requires t == cat + ": " + digits + " points"
    ensures var n, e := |cat|, |cat| + 2 + |digits|;
      e + 7 <= |t| && t[0..n] == cat && t[n + 2..e] == digits &&
      t[n] == ':' && t[n + 1] == ' ' && t[e] == ' ' && t[e + 1..e + 7] == "points"
  {
    var n, e := |cat|, |cat| + 2 + |digits|;
    var tail := ": " + digits + " points";
    assert t == cat + tail;
    assert t[n..] == tail;
    assert tail[2..2 + |digits|] == digits;
    assert t[n + 2..e] == tail[2..2 + |digits|];
    assert t[e..] == " points";
  }

  /** The characters of a slice are those of the text at the same offsets. */
  lemma SliceChars(t: string, lo: nat, hi: nat, u: string)
    requires lo <= hi <= |t| && t[lo..hi] == u
    ensures forall i :: lo <= i < hi ==> t[i] == u[i - lo]
  {
  }

  /** A category the lazy pattern reads up to a colon: no digit, `(`, `:` or line break, and no trailing white space. */
  predicate PlainCategory(cat: string) {
    cat != [] && !IsSpace(cat[|cat| - 1]) &&
    forall i :: 0 <= i < |cat| ==> !IsDigit(cat[i]) && cat[i] != '(' && cat[i] != ':' && !IsLineTerm(cat[i])
  }

  /** A non-empty run of decimal digits. */
  predicate Digits(d: string) {
    d != [] && forall i :: 0 <= i < |d| ==> IsDigit(d[i])
  }

  /** The clause `category: N points` is read at its colon. */
  lemma ColonFacts(t: string, cat: string, digits: string)
    requires t == cat + ": " + digits + " points"
    requires PlainCategory(cat) && Digits(digits)
    ensures var n, e := |cat|, |cat| + 2 + |digits|;
      ColonAt(t, n, e) && t[0..n] == cat && t[n + 2..e] == digits
  {
    var n, e := |cat|, |cat| + 2 + |digits|;
    ColonShape(t, cat, digits);
    SliceChars(t, 0, n, cat);
    SliceChars(t, n + 2, e, digits);
  }

  /** The criterion of a text that reads `category: N points`. */
  lemma ColonCriterion(t: string, cat: string, digits: string)
    requires PlainCategory(cat) && Digits(digits)
    requires t == cat + ": " + digits + " points"
    ensures CriterionOf(t) == Some(Criterion(Trim(cat), DigitsValue(digits)))
  {
    var n, e := |cat|, |cat| + 2 + |digits|;
    ColonFacts(t, cat, digits);
    ColonCategoryEnd(t, n, e);
    CriterionFromStart(t, n, n + 2, e, cat, digits);
  }

  /** A clause `category: N points` yields its trimmed category worth N. */
  lemma ColonClause(cat: string, digits: string)
    requires PlainCategory(cat) && Digits(digits)
    ensures CriterionOf(cat + ": " + digits + " points") == Some(Criterion(Trim(cat), DigitsValue(digits)))
  {
    ColonCriterion(cat + ": " + digits + " points", cat, digits);
  }

  /** Lines 47-56: clauses in order; an empty clause is skipped, one without a quantity adds nothing. */
  function ClauseCriteria(parts: seq<string>): (r: seq<Criterion>)
    ensures |r| <= |parts|
  {
    if parts == [] then []
    else ClauseCriteria(parts[..|parts| - 1]) + ClauseCriterion(parts[|parts| - 1])
  }

  /** Lines 48-55: an empty clause is skipped; a clause the pattern matches pushes its criterion. */
  function ClauseCriterion(part: string): (r: seq<Criterion>)
    ensures |r| <= 1
  {
    if part == [] then []
    else match CriterionOf(part)
      case None => []
      case Some(c) => [c]
  }

  /** The loop of lines 47-56: each clause adds what `ClauseCriterion` reads from it. */
  method ScoreClauses(parts: seq<string>) returns (criteria: seq<Criterion>)
    ensures criteria == ClauseCriteria(parts)
  {
    criteria := [];
    var i := 0;
    while i < |parts|
      invariant 0 <= i <= |parts|
      invariant criteria == ClauseCriteria(parts[..i])
    {
      assert parts[..i + 1][..i] == parts[..i];
      criteria := criteria + ClauseCriterion(parts[i]);
      i := i + 1;
    }
    assert parts[..i] == parts;
  }

  // ----- the extraction of lines 23-70 -----

  const FallbackCategory := "Exercise Completion"

  /** The criteria the point-system line states (lines 36-57). */
  function LineCriteria(content: string): seq<Criterion> {
    match PointSystemLine(content)
    case None => []
    case Some(line) => ClauseCriteria(SplitClauses(CriteriaText(line)))
  }

  /** Lines 59-61: one fallback criterion worth the detected total when the line gave none. */
  function Criteria(content: string): seq<Criterion> {
    var stated := LineCriteria(content);
    var total := TotalPoints(content);
    if |stated| == 0 && total > 0 then [Criterion(FallbackCategory, total)] else stated
  }

  /** `reduce((sum, item) => sum + item.points, 0)` */
  function Sum(cs: seq<Criterion>): nat {
    if cs == [] then 0 else Sum(cs[..|cs| - 1]) + cs[|cs| - 1].points
  }

  /** Line 66. */
  function PossiblePoints(content: string): nat {
    var sum := Sum(Criteria(content));
    if sum > 0 then sum else TotalPoints(content)
  }

  datatype Extraction = Extraction(possible: nat, badge: Option<Badge>, criteria: seq<Criterion>)

  function Extracted(content: string): Extraction {
    Extraction(PossiblePoints(content), FindBadge(content), Criteria(content))
  }

  /** Lines 36-57: the criteria read from the point-system line, if there is one. */
  method StatedCriteria(content: string) returns (criteria: seq<Criterion>)
    ensures criteria == LineCriteria(content)
  {
    criteria := [];
    match PointSystemLine(content) {
      case None =>
      case Some(line) =>
        var parts := SplitClauses(CriteriaText(line));
        criteria := ScoreClauses(parts);
    }
  }

  /** The body of the `useMemo` at lines 23-70, with its clause loop. */
  method Extract(content: string) returns (x: Extraction)
    ensures x == Extracted(content)
  {
    var criteria := StatedCriteria(content);
    var total := TotalPoints(content);
    if |criteria| == 0 && total > 0 {
      criteria := criteria + [Criterion(FallbackCategory, total)];
    }
    var sum := Sum(criteria);
    x := Extraction(if sum > 0 then sum else total, FindBadge(content), criteria);
  }

  /** The total is the sum of the stated criteria when that is positive, and the detected total otherwise. */
  lemma PossiblePointsSource(content: string)
    ensures var sum := Sum(LineCriteria(content));
      PossiblePoints(content) == if sum > 0 then sum else TotalPoints(content)
  {
    var stated := LineCriteria(content);
    var total := TotalPoints(content);
    if |stated| == 0 && total > 0 {
      assert Sum([Criterion(FallbackCategory, total)]) == total by {
        assert [Criterion(FallbackCategory, total)][..0] == [];
      }
    }
  }

  /** Without stated criteria the rubric is exactly the fallback worth the detected total, or empty. */
  lemma FallbackCriteria(content: string)
    requires LineCriteria(content) == []
    ensures TotalPoints(content) > 0 ==> Criteria(content) == [Criterion(FallbackCategory, TotalPoints(content))]
    ensures TotalPoints(content) == 0 ==> Criteria(content) == [] && PossiblePoints(content) == 0
  {
  }

  // ----- awarded points (lines 72-79) -----

  /** The points of the criteria whose category is ticked; a category listed twice counts twice. */
  function AwardedPoints(cs: seq<Criterion>, awarded: set<string>): nat {
    if cs == [] then 0
    else AwardedPoints(cs[..|cs| - 1], awarded) + (if cs[|cs| - 1].category in awarded then cs[|cs| - 1].points else 0)
  }

  lemma {:induction false} AwardedAtMostSum(cs: seq<Criterion>, awarded: set<string>)
    ensures AwardedPoints(cs, awarded) <= Sum(cs)
    decreases |cs|
  {
    if cs != [] {
      AwardedAtMostSum(cs[..|cs| - 1], awarded);
    }
  }

  /** Ticking more categories never lowers the score. */
  lemma {:induction false} AwardedMonotone(cs: seq<Criterion>, a: set<string>, b: set<string>)
    requires a <= b
    ensures AwardedPoints(cs, a) <= AwardedPoints(cs, b)
    decreases |cs|
  {
    if cs != [] {
      AwardedMonotone(cs[..|cs| - 1], a, b);
    }
  }

  /** With every category ticked the score is the full sum. */
  lemma {:induction false} AwardedEverything(cs: seq<Criterion>, awarded: set<string>)
    requires forall i :: 0 <= i < |cs| ==> cs[i].category in awarded
    ensures AwardedPoints(cs, awarded) == Sum(cs)
    decreases |cs|
  {
    if cs != [] {
      AwardedEverything(cs[..|cs| - 1], awarded);
    }
  }

  /** The score shown never exceeds the possible total (lines 63-66, 72-79). */
  lemma AwardedWithinPossible(content: string, awarded: set<string>)
    ensures AwardedPoints(Criteria(content), awarded) <= PossiblePoints(content)
  {
    AwardedAtMostSum(Criteria(content), awarded);
  }

  // ----- toggling, finalising and the badge threshold (lines 81-100) -----

  /** Lines 83-88: flip one category's membership. */
  function ToggleSet(awarded: set<string>, category: string): (r: set<string>)
    ensures category in r <==> category !in awarded
    ensures forall c :: c != category ==> (c in r <==> c in awarded)
  {
    if category in awarded then awarded - {category} else awarded + {category}
  }

  lemma ToggleTwice(awarded: set<string>, category: string)
    ensures ToggleSet(ToggleSet(awarded, category), category) == awarded
  {
  }

  /** Line 96, with `awarded >= total * 0.8` read exactly as `5 * awarded >= 4 * total`. */
  predicate Unlocked(complete: bool, awarded: nat, total: nat) {
    complete && 5 * awarded >= 4 * total && total > 0
  }

  /** Exactly 80% unlocks; one point less does not. */
  lemma UnlockBoundary(m: nat)
    requires m > 0
    ensures Unlocked(true, 4 * m, 5 * m)
    ensures !Unlocked(true, 4 * m - 1, 5 * m)
  {
  }

  /** When the stated points add up to something, ticking every criterion earns the badge after finalising. */
  lemma FullMarksUnlock(content: string, awarded: set<string>)
    requires Sum(Criteria(content)) > 0
    requires forall i :: 0 <= i < |Criteria(content)| ==> Criteria(content)[i].category in awarded
    ensures Unlocked(true, AwardedPoints(Criteria(content), awarded), PossiblePoints(content))
  {
    AwardedEverything(Criteria(content), awarded);
  }

  /** A positive total phrase always yields a rubric, so the panel is shown (lines 59-61, 98-100). */
  lemma ShownWithTotal(content: string)
    ensures TotalPoints(content) > 0 ==> |Criteria(content)| > 0
  {
  }

  // ----- a worked rubric line, followed through every step of lines 37-56 -----

  /** Characters the worked line is made of: ASCII letters and digits, space, `:` and `,`. */
  predicate Tame(s: string) {
    forall i :: 0 <= i < |s| ==> ('a' <= s[i] <= 'z' || 'A' <= s[i] <= 'Z' || IsDigit(s[i]) || s[i] == ' ' || s[i] == ':' || s[i] == ',')
  }

  /** No `t` of either case ends the text or comes before an `o` of either case. */
  predicate NoTo(s: string) {
    forall i :: 0 <= i < |s| && Upper(s[i]) == 'T' ==> i + 1 < |s| && Upper(s[i + 1]) != 'O'
  }

  /** No comma, and no white space before a lower-case `a`. */
  predicate Unsplit(s: string) {
    forall i :: 0 <= i < |s| ==> s[i] != ',' && (IsSpace(s[i]) && i + 1 < |s| ==> s[i + 1] != 'a')
  }

  lemma TameAppend(a: string, b: string)
    requires Tame(a) && Tame(b)
    ensures Tame(a + b)
  {
    forall i | 0 <= i < |a + b| ensures var c := (a + b)[i]; 'a' <= c <= 'z' || 'A' <= c <= 'Z' || IsDigit(c) || c == ' ' || c == ':' || c == ',' {
      if i < |a| { assert (a + b)[i] == a[i]; } else { assert (a + b)[i] == b[i - |a|]; }
    }
  }

  lemma NoToAppend(a: string, b: string)
    requires NoTo(a) && NoTo(b)
    ensures NoTo(a + b)
  {
    var s := a + b;
    forall i | 0 <= i < |s| && Upper(s[i]) == 'T' ensures i + 1 < |s| && Upper(s[i + 1]) != 'O' {
      if i < |a| {
        assert s[i] == a[i] && s[i + 1] == a[i + 1];
      } else {
        assert s[i] == b[i - |a|];
        assert i + 1 - |a| < |b|;
        assert s[i + 1] == b[i + 1 - |a|];
      }
    }
  }

  lemma UnsplitAppend(a: string, b: string)
    requires Unsplit(a) && Unsplit(b)
    requires a != [] && b != [] && IsSpace(a[|a| - 1]) ==> b[0] != 'a'
    ensures Unsplit(a + b)
  {
    var s := a + b;
    forall i | 0 <= i < |s| ensures s[i] != ',' && (IsSpace(s[i]) && i + 1 < |s| ==> s[i + 1] != 'a') {
      if i + 1 < |a| {
        assert s[i] == a[i] && s[i + 1] == a[i + 1];
      } else if i + 1 == |a| {
        assert s[i] == a[i];
        if i + 1 < |s| { assert s[i + 1] == b[0]; }
      } else {
        assert s[i] == b[i - |a|];
        if i + 1 < |s| { assert s[i + 1] == b[i + 1 - |a|]; }
      }
    }
  }

  /** A category word: ASCII letters, no `t` in either case, not starting with a lower-case `a`. */
  predicate Word(c: string) {
    c != [] && c[0] != 'a' && forall i :: 0 <= i < |c| ==> ('a' <= c[i] <= 'z' || 'A' <= c[i] <= 'Z') && Upper(c[i]) != 'T'
  }

  /** The clause `c: d points`. */
  function Clause(c: string, d: string): string {
    c + ": " + d + " points"
  }

  /** An ASCII letter is no white space, digit, parenthesis, colon or line break. */
  lemma LetterPlain(x: char)
    requires 'a' <= x <= 'z' || 'A' <= x <= 'Z'
    ensures !IsSpace(x) && !IsDigit(x) && x != '(' && x != ':' && x != ','
  {
  }

  lemma WordClasses(c: string)
    requires Word(c)
    ensures Tame(c) && NoTo(c) && Unsplit(c)
  {
    forall i | 0 <= i < |c| ensures !IsSpace(c[i]) && c[i] != ',' {
      LetterPlain(c[i]);
    }
  }

  lemma WordCategory(c: string)
    requires Word(c)
    ensures PlainCategory(c) && PlainCategory(" " + c)
  {
    var s := " " + c;
    forall i | 0 <= i < |s| ensures !IsDigit(s[i]) && s[i] != '(' && s[i] != ':' && !IsLineTerm(s[i]) {
      if i > 0 { assert s[i] == c[i - 1]; LetterPlain(c[i - 1]); }
    }
    LetterPlain(c[|c| - 1]);
    assert s[|s| - 1] == c[|c| - 1];
  }

  lemma WordTrim(c: string)
    requires Word(c)
    ensures Trim(c) == c && Trim(" " + c) == c
  {
    LetterPlain(c[0]);
    LetterPlain(c[|c| - 1]);
    TrimSame(c);
    TrimSpace(c);
  }

  lemma DigitsFacts(d: string)
    requires Digits(d)
    ensures Tame(d) && NoTo(d) && Unsplit(d)
  {
  }

  /** The fixed pieces of a clause. */
  lemma PiecesFacts()
    ensures Tame(": ") && NoTo(": ") && Unsplit(": ")
    ensures Tame(" points") && NoTo(" points") && Unsplit(" points")
  {
    NoA(": ");
    NoA(" points");
    UnitNoTo();
  }

  lemma UnitNoTo()
    ensures NoTo(" points")
  {
    var u := " points";
    forall i | 0 <= i < |u| && Upper(u[i]) == 'T' ensures i + 1 < |u| && Upper(u[i + 1]) != 'O' {
      assert i == 5;
    }
  }

  /** A text without a comma or an `a` cannot be split. */
  lemma NoA(s: string)
    requires forall i :: 0 <= i < |s| ==> s[i] != ',' && s[i] != 'a'
    ensures Unsplit(s)
  {
  }

  /** A clause is made of the characters the worked line allows. */
  lemma ClauseFacts(c: string, d: string)
    requires Word(c) && Digits(d)
    ensures var u := Clause(c, d); Tame(u) && NoTo(u) && Unsplit(u) && u[0] == c[0] && u[|u| - 1] == 's'
  {
    WordClasses(c);
    DigitsFacts(d);
    PiecesFacts();
    ClauseTame(c, d);
    ClauseNoTo(c, d);
    ClauseUnsplit(c, d);
  }

  lemma ClauseTame(c: string, d: string)
    requires Tame(c) && Tame(d) && Tame(": ") && Tame(" points")
    ensures Tame(Clause(c, d))
  {
    TameAppend(c, ": ");
    TameAppend(c + ": ", d);
    TameAppend(c + ": " + d, " points");
  }

  lemma ClauseNoTo(c: string, d: string)
    requires NoTo(c) && NoTo(d) && NoTo(": ") && NoTo(" points")
    ensures NoTo(Clause(c, d))
  {
    NoToAppend(c, ": ");
    NoToAppend(c + ": ", d);
    NoToAppend(c + ": " + d, " points");
  }

  lemma ClauseUnsplit(c: string, d: string)
    requires Unsplit(c) && Unsplit(d) && Unsplit(": ") && Unsplit(" points")
    requires c != [] && !IsSpace(c[|c| - 1]) && d != [] && d[0] != 'a'
    ensures Unsplit(Clause(c, d))
  {
    UnsplitAppend(c, ": ");
    UnsplitAppend(c + ": ", d);
    UnsplitAppend(c + ": " + d, " points");
  }

  lemma TameNoChar(s: string)
    requires Tame(s)
    ensures NoLineTerm(s) && NoChar(s, '(') && NoChar(s, '.')
  {
  }

  /** A marker followed by a line without line breaks: that line is the point-system line. */
  lemma PointSystemOf(line: string)
    requires NoLineTerm(line)
    ensures PointSystemLine(PointSystemMarker + line) == Some(line)
  {
    var content := PointSystemMarker + line;
    var b := |PointSystemMarker|;
    MarkerFirst(content, b, line);
    PointSystemLineAt(content, 0, b);
  }

  lemma MarkerFirst(content: string, b: nat, line: string)
    requires content == PointSystemMarker + line && b == |PointSystemMarker| && NoLineTerm(line)
    ensures b <= |content| && PointSystemAt(content, 0) && content[b..LineEnd(content, b)] == line
  {
    forall k | 0 <= k < b ensures Upper(content[0..][k]) == Upper(PointSystemMarker[k]) {
      assert content[0..][k] == PointSystemMarker[k];
    }
    forall k | b <= k < |content| ensures !IsLineTerm(content[k]) {
      assert content[k] == line[k - b];
    }
    LineEndTo(content, b, |content|);
    assert content[b..] == line;
  }

  /** Without `(` there is no example to unwrap. */
  lemma UnwrapNone(t: string)
    requires NoChar(t, '(')
    ensures UnwrapExample(t) == t
  {
    forall i | 0 <= i <= |t| ensures ExampleAt(t, i).None? {
      if i < |t| {
        assert t[i..][0] == t[i];
      }
    }
  }

  /** Without `.` there is no `etc.` to remove. */
  lemma RemoveEtcNone(t: string)
    requires NoChar(t, '.')
    ensures RemoveEtc(t) == t
  {
    forall i | 0 <= i <= |t| ensures !EtcAt(t, i) {
      if i + 4 <= |t| {
        assert t[i..][3] == t[i + 3];
      }
    }
  }

  /** The tail `, totaling ...` at `p` is a totaling match. */
  lemma TotalingHere(t: string, p: nat, more: string)
    requires p <= |t| && t[p..] == ", totaling" + more && NoLineTerm(more)
    ensures TotalingAt(t, p) && t[p] == ','
  {
    var tail := ", totaling" + more;
    assert t[p] == tail[0] && t[p + 1] == tail[1] && t[p + 2] == tail[2];
    SkipSpaceTo(t, p + 1, p + 2);
    forall k | 0 <= k < 8 ensures Upper(t[p + 2..][k]) == Upper("totaling"[k]) {
      assert t[p + 2..][k] == tail[2 + k];
    }
    forall k | p + 10 <= k < |t| ensures !IsLineTerm(t[k]) {
      assert t[k] == tail[k - p] == more[k - p - 10];
    }
    LineEndTo(t, p + 10, |t|);
  }

  /** No `totaling` starts in a text whose `t`s are never followed by an `o`, nor at a comma after it. */
  lemma NoTotalingWord(t: string, p: nat, w: nat)
    requires p < |t| && NoTo(t[..p]) && t[p] == ',' && w <= p
    ensures !StartsWithCI(t[w..], "totaling")
  {
    if w < p {
      assert t[w..][0] == t[w] && t[w..][1] == t[w + 1];
      assert t[..p][w] == t[w];
      if w + 1 < p {
        assert t[..p][w + 1] == t[w + 1];
      }
    }
  }

  /** No totaling match starts before `p`. */
  lemma NoTotalingBefore(t: string, p: nat)
    requires p < |t| && NoTo(t[..p]) && t[p] == ','
    ensures forall k :: 0 <= k < p ==> !TotalingAt(t, k)
  {
    forall k | 0 <= k < p ensures !TotalingAt(t, k) {
      NoTotalingWord(t, p, SkipSpace(t, k));
      NoTotalingWord(t, p, SkipSpace(t, k + 1));
    }
  }

  /** The first `, totaling` tail at `p` is cut off, and the text before it stays. */
  lemma CutAt(head: string, more: string)
    requires NoTo(head) && NoLineTerm(more)
    ensures CutTotaling(head + ", totaling" + more) == head
  {
    var t := head + ", totaling" + more;
    var p := |head|;
    assert t[p..] == ", totaling" + more;
    assert t[..p] == head;
    TotalingHere(t, p, more);
    NoTotalingBefore(t, p);
    var r := CutTotaling(t);
    assert r != t;
    assert |r| == p;
  }

  /** Before `n`, where no comma stands and no white space comes before an `a`, no separator starts. */
  lemma NoSeparatorUpTo(t: string, n: nat)
    requires n <= |t|
    requires forall i :: 0 <= i < n ==> t[i] != ',' && (IsSpace(t[i]) && i + 1 < |t| ==> t[i + 1] != 'a')
    ensures forall q :: 0 <= q < n ==> SeparatorAt(t, q).None?
  {
    forall q | 0 <= q < n ensures SeparatorAt(t, q).None? {
      if q + 5 <= |t| {
        assert t[q + 1..q + 4][0] == t[q + 1];
      }
    }
  }

  /** A text that cannot be split is one clause. */
  lemma SplitOne(b: string)
    requires Unsplit(b)
    ensures SplitClauses(b) == [b]
  {
    NoSeparatorUpTo(b, |b|);
    assert SeparatorAt(b, |b|).None?;
    assert NextSeparator(b).None?;
    assert b[..|b|] == b;
  }

  /** Two texts that cannot be split, joined by a comma, are two clauses. */
  lemma SplitTwo(a: string, b: string)
    requires Unsplit(a) && Unsplit(b)
    ensures SplitClauses(a + "," + b) == [a, b]
  {
    var t := a + "," + b;
    var q := |a|;
    forall i | 0 <= i < q ensures t[i] != ',' && (IsSpace(t[i]) && i + 1 < |t| ==> t[i + 1] != 'a') {
      assert t[i] == a[i];
      if i + 1 < q {
        assert t[i + 1] == a[i + 1];
      } else {
        assert t[i + 1] == ',';
      }
    }
    NoSeparatorUpTo(t, q);
    assert t[q] == ',';
    assert SeparatorAt(t, q) == Some(1);
    var r := NextSeparator(t);
    assert r.Some? && r.value.0 == q;
    ClausesStep(t, q, q + 1);
    assert t[..q] == a && t[q + 1..] == b;
    SplitOne(b);
  }

  /** The two clauses, the second after a space, are read as the two criteria. */
  lemma TwoClauses(c1: string, d1: string, c2: string, d2: string)
    requires Word(c1) && Word(c2) && Digits(d1) && Digits(d2)
    ensures ClauseCriteria(SplitClauses(Clause(c1, d1) + "," + (" " + Clause(c2, d2))))
      == [Criterion(c1, DigitsValue(d1)), Criterion(c2, DigitsValue(d2))]
  {
    var u1, u2 := Clause(c1, d1), " " + Clause(c2, d2);
    SecondClause(c2, d2);
    ClauseFacts(c1, d1);
    SplitTwo(u1, u2);
    ClauseCriteriaTwo(u1, u2);
    FirstCriterion(c1, d1);
    SecondCriterion(c2, d2);
  }

  lemma ClauseCriteriaTwo(x: string, y: string)
    ensures ClauseCriteria([x, y]) == ClauseCriterion(x) + ClauseCriterion(y)
  {
    assert [x, y][..1] == [x] && [x][..0] == [];
  }

  lemma FirstCriterion(c: string, d: string)
    requires Word(c) && Digits(d)
    ensures ClauseCriterion(Clause(c, d)) == [Criterion(c, DigitsValue(d))]
  {
    WordCategory(c);
    WordTrim(c);
    ClauseOfColon(Clause(c, d), c, d);
  }

  lemma SecondCriterion(c: string, d: string)
    requires Word(c) && Digits(d)
    ensures ClauseCriterion(" " + Clause(c, d)) == [Criterion(c, DigitsValue(d))]
  {
    var cat := " " + c;
    SpacedClause(c, d, cat);
    SpacedCategory(c, cat);
    ClauseOfColon(" " + Clause(c, d), cat, d);
  }

  lemma SpacedClause(c: string, d: string, cat: string)
    requires cat == " " + c
    ensures " " + Clause(c, d) == cat + ": " + d + " points"
  {
  }

  lemma SpacedCategory(c: string, cat: string)
    requires Word(c) && cat == " " + c
    ensures PlainCategory(cat) && Trim(cat) == c
  {
    WordCategory(c);
    WordTrim(c);
  }

  /** A clause `cat: N points` adds its one criterion. */
  lemma ClauseOfColon(part: string, cat: string, d: string)
    requires PlainCategory(cat) && Digits(d) && part == cat + ": " + d + " points"
    ensures ClauseCriterion(part) == [Criterion(Trim(cat), DigitsValue(d))]
  {
    ColonCriterion(part, cat, d);
  }

  /** The second clause, after its space, cannot be split either. */
  lemma SecondClause(c: string, d: string)
    requires Word(c) && Digits(d)
    ensures Unsplit(" " + Clause(c, d))
  {
    ClauseFacts(c, d);
    UnsplitAppend(" ", Clause(c, d));
  }

  /** The characters of the worked line, and no `to` before its tail. */
  lemma LineFacts(c1: string, d1: string, c2: string, d2: string, d3: string)
    requires Word(c1) && Word(c2) && Digits(d1) && Digits(d2) && Digits(d3)
    ensures var head := " " + (Clause(c1, d1) + "," + (" " + Clause(c2, d2)));
      Tame(head) && NoTo(head) && NoLineTerm(" " + d3 + " points") && Tame(head + ", totaling" + (" " + d3 + " points"))
  {
    var head := " " + (Clause(c1, d1) + "," + (" " + Clause(c2, d2)));
    HeadFacts(c1, d1, c2, d2);
    TailFacts(head, d3);
  }

  lemma HeadFacts(c1: string, d1: string, c2: string, d2: string)
    requires Word(c1) && Word(c2) && Digits(d1) && Digits(d2)
    ensures var head := " " + (Clause(c1, d1) + "," + (" " + Clause(c2, d2)));
      Tame(head) && NoTo(head)
  {
    var u1, u2 := Clause(c1, d1), " " + Clause(c2, d2);
    ClauseFacts(c1, d1);
    ClauseFacts(c2, d2);
    var sp, comma := " ", ",";
    assert Tame(sp) && NoTo(sp) && Tame(comma) && NoTo(comma);
    TameAppend(sp, Clause(c2, d2)); NoToAppend(sp, Clause(c2, d2));
    TameAppend(u1, comma); NoToAppend(u1, comma);
    TameAppend(u1 + comma, u2); NoToAppend(u1 + comma, u2);
    TameAppend(sp, u1 + comma + u2); NoToAppend(sp, u1 + comma + u2);
  }

  lemma TailFacts(head: string, d3: string)
    requires Tame(head) && Digits(d3)
    ensures NoLineTerm(" " + d3 + " points") && Tame(head + ", totaling" + (" " + d3 + " points"))
  {
    PiecesFacts();
    DigitsFacts(d3);
    var sp, more, cue := " ", " " + d3 + " points", ", totaling";
    assert Tame(sp) && Tame(cue);
    TameAppend(sp, d3);
    TameAppend(sp + d3, " points");
    TameNoChar(more);
    TameAppend(head, cue);
    TameAppend(head + cue, more);
  }

  /** The worked line keeps its two clauses through the unwrap, the cut, the removal and the trim. */
  lemma WorkedText(body: string, more: string)
    requires body != [] && !IsSpace(body[0]) && !IsSpace(body[|body| - 1])
    requires Tame(" " + body) && NoTo(" " + body) && NoLineTerm(more) && Tame(" " + body + ", totaling" + more)
    ensures var line := " " + body + ", totaling" + more;
      PointSystemLine(PointSystemMarker + line) == Some(line) && CriteriaText(line) == body
  {
    var head := " " + body;
    var line := head + ", totaling" + more;
    TameNoChar(line);
    TameNoChar(head);
    PointSystemOf(line);
    UnwrapNone(line);
    CutAt(head, more);
    RemoveEtcNone(head);
    TrimSpace(body);
  }

  /** The worked text: the marker and two clauses, then the announced total. */
  function WorkedContent(c1: string, d1: string, c2: string, d2: string, d3: string): string {
    PointSystemMarker + " " + Clause(c1, d1) + ", " + Clause(c2, d2) + ", totaling " + d3 + " points"
  }

  /**
   * `**Point System:** A: m points, B: n points, totaling N points` with category words
   * `A` and `B` yields the criteria `A` worth m and `B` worth n.
   */
  lemma WorkedCriteria(c1: string, d1: string, c2: string, d2: string, d3: string)
    requires Word(c1) && Word(c2) && Digits(d1) && Digits(d2) && Digits(d3)
    ensures Criteria(WorkedContent(c1, d1, c2, d2, d3)) == [Criterion(c1, DigitsValue(d1)), Criterion(c2, DigitsValue(d2))]
  {
    var body := Clause(c1, d1) + "," + (" " + Clause(c2, d2));
    var more := " " + d3 + " points";
    var line := " " + body + ", totaling" + more;
    WorkedLine(c1, d1, c2, d2, d3, body, more);
    TwoClauses(c1, d1, c2, d2);
    WorkedContentIs(c1, d1, c2, d2, d3, line);
    CriteriaOfLine(WorkedContent(c1, d1, c2, d2, d3), line, [Criterion(c1, DigitsValue(d1)), Criterion(c2, DigitsValue(d2))]);
  }

  lemma WorkedContentIs(c1: string, d1: string, c2: string, d2: string, d3: string, line: string)
    requires line == " " + (Clause(c1, d1) + "," + (" " + Clause(c2, d2))) + ", totaling" + (" " + d3 + " points")
    ensures WorkedContent(c1, d1, c2, d2, d3) == PointSystemMarker + line
  {
  }

  /** The worked line is the point-system line, and its criteria text is the two clauses. */
  lemma WorkedLine(c1: string, d1: string, c2: string, d2: string, d3: string, body: string, more: string)
    requires Word(c1) && Word(c2) && Digits(d1) && Digits(d2) && Digits(d3)
    requires body == Clause(c1, d1) + "," + (" " + Clause(c2, d2)) && more == " " + d3 + " points"
    ensures var line := " " + body + ", totaling" + more;
      PointSystemLine(PointSystemMarker + line) == Some(line) && CriteriaText(line) == body
  {
    ClauseFacts(c1, d1);
    ClauseFacts(c2, d2);
    LetterPlain(c1[0]);
    assert body[0] == c1[0] && body[|body| - 1] == 's';
    LineFacts(c1, d1, c2, d2, d3);
    WorkedText(body, more);
  }

  /** Criteria read from the point-system line are the criteria, whatever the total. */
  lemma CriteriaOfLine(content: string, line: string, cs: seq<Criterion>)
    requires PointSystemLine(content) == Some(line) && ClauseCriteria(SplitClauses(CriteriaText(line))) == cs && cs != []
    ensures Criteria(content) == cs
  {
  }

  /** The rubric line of a speaking exercise: two criteria of 25 points each. */
  lemma PointSystemExample()
    ensures Criteria("**Point System:** Fluency: 25 points, Accuracy: 25 points, totaling 50 points")
      == [Criterion("Fluency", 25), Criterion("Accuracy", 25)]
  {
    ExampleWords();
    ExampleValue();
    WorkedCriteria("Fluency", "25", "Accuracy", "25", "50");
    ExampleContent();
  }

  /** The worked text with these words and numbers is the example, built up piece by piece. */
  lemma ExampleContent()
    ensures WorkedContent("Fluency", "25", "Accuracy", "25", "50")
      == "**Point System:** Fluency: 25 points, Accuracy: 25 points, totaling 50 points"
  {
    ExampleClauses();
    ExampleHead();
    ExampleMiddle();
    ExampleTail();
  }

  lemma ExampleClauses()
    ensures Clause("Fluency", "25") == "Fluency: 25 points" && Clause("Accuracy", "25") == "Accuracy: 25 points"
    ensures PointSystemMarker + " " == "**Point System:** "
  {
  }

  lemma ExampleHead()
    ensures "**Point System:** " + "Fluency: 25 points" == "**Point System:** Fluency: 25 points"
    ensures "**Point System:** Fluency: 25 points" + ", " == "**Point System:** Fluency: 25 points, "
  {
  }

  lemma ExampleMiddle()
    ensures "**Point System:** Fluency: 25 points, " + "Accuracy: 25 points" == "**Point System:** Fluency: 25 points, Accuracy: 25 points"
  {
  }

  lemma ExampleTail()
    ensures "**Point System:** Fluency: 25 points, Accuracy: 25 points" + ", totaling " == "**Point System:** Fluency: 25 points, Accuracy: 25 points, totaling "
    ensures "**Point System:** Fluency: 25 points, Accuracy: 25 points, totaling " + "50" == "**Point System:** Fluency: 25 points, Accuracy: 25 points, totaling 50"
    ensures "**Point System:** Fluency: 25 points, Accuracy: 25 points, totaling 50" + " points" == "**Point System:** Fluency: 25 points, Accuracy: 25 points, totaling 50 points"
  {
  }

  lemma ExampleWords()
    ensures Word("Fluency") && Word("Accuracy") && Digits("25") && Digits("50")
  {
  }

  lemma ExampleValue()
    ensures DigitsValue("25") == 25
  {
    assert "25"[..1] == "2" && "2"[..0] == [];
  }

  /** The state of the panel: the extraction is fixed per content, the ticks and the finalised flag change. */
  class AwardPanel {
    const criteria: seq<Criterion>
    const possible: nat
    const badge: Option<Badge>
    /** The text the panel was given; the extraction is a function of it. */
    ghost const source: string
    var awarded: set<string>
    var complete: bool

    /** Only constants are read, so no state change can break it. */
    ghost predicate Valid() {
      criteria == Criteria(source) && possible == PossiblePoints(source) && badge == FindBadge(source)
    }

    /** Lines 20-23: nothing ticked, not finalised. */
    constructor(content: string)
      ensures source == content && Valid()
      ensures awarded == {} && !complete
    {
      var x := Extract(content);
      criteria, possible, badge := x.criteria, x.possible, x.badge;
      source := content;
      awarded, complete := {}, false;
    }

    /** Lines 72-79: never more than the possible total. */
    function Score(): (r: nat)
      reads this
      requires Valid()
      ensures r <= possible
    {
      AwardedWithinPossible(source, awarded);
      AwardedPoints(criteria, awarded)
    }

    /** Line 96: never before finalising, and never with nothing to earn. */
    predicate BadgeUnlocked()
      reads this
      requires Valid()
      ensures BadgeUnlocked() ==> complete && 0 < possible && 0 < Score()
    {
      Unlocked(complete, Score(), possible)
    }

    /**
     * Lines 98-100: the panel renders nothing without criteria and without a badge. It is
     * shown exactly when the text states a rubric or a badge, and always when it states a total.
     */
    predicate Visible()
      reads this
      ensures Valid() ==> (Visible() <==> Criteria(source) != [] || FindBadge(source).Some?)
      ensures Valid() && TotalPoints(source) > 0 ==> Visible()
    {
      ShownWithTotal(source);
      |criteria| > 0 || badge.Some?
    }

    /** Lines 81-90: ignored once finalised, otherwise flips exactly one category. */
    method Toggle(category: string)
      modifies this
      ensures complete == old(complete)
      ensures awarded == if old(complete) then old(awarded) else ToggleSet(old(awarded), category)
    {
      if complete {
        return;
      }
      awarded := ToggleSet(awarded, category);
    }

    /** Lines 92-94: unconditional; nothing sets the flag back. */
    method Finalize()
      modifies this
      ensures complete && awarded == old(awarded)
    {
      complete := true;
    }
  }
}
