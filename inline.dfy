// The inline substitutions of the result renderer: links `[label](url)`, bold `**x**`
// and italic `*x*`, each a global regex replace with a lazy group.
// Each global replace is a left-to-right scan: at each position the pattern is tried,
// a match is replaced and the scan resumes after it, otherwise one character is copied.
module Inline {
  import opened Strings

  const StrongOpen := "<strong>"
  const StrongClose := "</strong>"
  const EmOpen := "<em>"
  const EmClose := "</em>"

  /** The anchor both link substitutions produce; `$2` is the target, `$1` the label. */
  function Anchor(url: string, text: string): string {
    "<a href=\"" + url + "\" target=\"_blank\" rel=\"noopener noreferrer\" class=\"text-indigo-500 hover:underline\">"
    + text + "</a>"
  }

  datatype LinkMatch = LinkMatch(text: string, url: string, end: nat)

  /**
   * The link pattern at the start of `s`. The lazy text ends at the first `](` on the
   * line and the lazy target at the first `)` after it; if that `)` is missing, no later
   * `](` on the same line can have one either, so backtracking cannot find another match.
   */
  function LinkAt(s: string): (r: Option<LinkMatch>)
    requires s != [] && s[0] == '['
    ensures r.Some? ==> 4 <= r.value.end <= |s|
    ensures r.Some? ==> s[..r.value.end] == "[" + r.value.text + "](" + r.value.url + ")"
    ensures r.Some? ==> !Contains(r.value.text, "](") && NoChar(r.value.url, ')')
  {
    match FindOnLine(s, 1, "](")
    case None => None
    case Some(j) =>
      match FindOnLine(s, j + 2, ")")
      case None => None
      case Some(k) =>
        var text, url := s[1..j], s[j + 2..k];
        LinkShape(s, j, k);
        NoOccurrenceNoChar(s, j + 2, k, ')');
        LabelFree(s, j);
        Some(LinkMatch(text, url, k + 1))
  }

  /** The text up to a `)` after a `](` is a bracketed label and a parenthesised target. */
  lemma LinkShape(s: string, j: nat, k: nat)
    requires s != [] && s[0] == '[' && 1 <= j && j + 2 <= k
    requires Occurs(s, "](", j) && Occurs(s, ")", k)
    ensures s[..k + 1] == "[" + s[1..j] + "](" + s[j + 2..k] + ")"
  {
    assert s[..1] == "[";
    assert s[..k + 1] == s[..1] + s[1..j] + s[j..j + 2] + s[j + 2..k] + s[k..k + 1];
  }

  /** The label before the first `](` does not contain `](`. */
  lemma LabelFree(s: string, j: nat)
    requires 1 <= j <= |s|
    requires forall i :: 1 <= i < j ==> !Occurs(s, "](", i)
    ensures !Contains(s[1..j], "](")
  {
    forall i | 0 <= i < j - 1 ensures !Occurs(s[1..], "](", i) {
      assert !Occurs(s, "](", i + 1);
      if i + 3 <= |s| { assert s[1..][i..i + 2] == s[i + 1..i + 3]; }
    }
    PrefixBeforeFirstIsFree(s[1..], "](", j - 1);
    assert s[1..][..j - 1] == s[1..j];
  }

  // .replace(/\[(.*?)\]\((.*?)\)/g, '<a href="$2" ...>$1</a>')
  function LinkPass(s: string): string
    decreases |s|
  {
    if s == [] then []
    else if s[0] == '[' && LinkAt(s).Some? then
      var m := LinkAt(s).value;
      Anchor(m.url, m.text) + LinkPass(s[m.end..])
    else [s[0]] + LinkPass(s[1..])
  }

  // .replace(/D(.*?)D/g, open + '$1' + close) for a literal delimiter D
  function DelimPass(s: string, d: string, open: string, close: string): string
    requires |d| > 0
    decreases |s|
  {
    if s == [] then []
    else if StartsWith(s, d) && FindOnLine(s, |d|, d).Some? then
      var j := FindOnLine(s, |d|, d).value;
      open + s[|d|..j] + close + DelimPass(s[j + |d|..], d, open, close)
    else [s[0]] + DelimPass(s[1..], d, open, close)
  }

  // .replace(/\*\*(.*?)\*\*/g, '<strong>$1</strong>')
  function Bold(s: string): string {
    DelimPass(s, "**", StrongOpen, StrongClose)
  }

  // .replace(/\*(.*?)\*/g, '<em>$1</em>')
  function Italic(s: string): string {
    DelimPass(s, "*", EmOpen, EmClose)
  }

  /** Text without `[` passes the link substitution unchanged. */
  lemma {:induction false} LinkPassIdentity(s: string)
    requires NoChar(s, '[')
    ensures LinkPass(s) == s
    decreases |s|
  {
    if s != [] {
      LinkPassIdentity(s[1..]);
    }
  }

  /** Text without the delimiter's first character passes a delimiter substitution unchanged. */
  lemma {:induction false} DelimPassIdentity(s: string, d: string, open: string, close: string)
    requires |d| > 0 && NoChar(s, d[0])
    ensures DelimPass(s, d, open, close) == s
    decreases |s|
  {
    if s != [] {
      assert !StartsWith(s, d);
      DelimPassIdentity(s[1..], d, open, close);
    }
  }

  /** The closing `**` of `**x**` is the one after `x` when `x` has no `*` and stays on one line. */
  lemma BoldCloses(x: string)
    requires NoChar(x, '*') && NoLineTerm(x)
    ensures FindOnLine("**" + x + "**", 2, "**") == Some(2 + |x|)
  {
    var d := "**";
    var s := d + x + d;
    assert s[2..2 + |x|] == x;
    assert s[2 + |x|..2 + |x| + 2] == d;
    forall k | 2 <= k < 2 + |x| ensures !Occurs(s, d, k) {
      assert s[k] == x[k - 2];
      if k + 2 <= |s| { assert s[k..k + 2][0] == s[k]; }
    }
    FindOnLineAt(s, 2, d, 2 + |x|);
  }

  /** Main-text order (bold, then italic): `**x**` becomes `<strong>x</strong>`, never a nested `<em>`. */
  lemma BoldThenItalic(x: string)
    requires NoChar(x, '*') && NoLineTerm(x)
    ensures Italic(Bold("**" + x + "**")) == StrongOpen + x + StrongClose
  {
    var s := "**" + x + "**";
    BoldCloses(x);
    assert StartsWith(s, "**");
    assert s[2..2 + |x|] == x;
    assert s[2 + |x| + 2..] == [];
    calc {
      Bold(s);
      StrongOpen + s[2..2 + |x|] + StrongClose + DelimPass(s[2 + |x| + 2..], "**", StrongOpen, StrongClose);
      StrongOpen + x + StrongClose;
    }
    var t := StrongOpen + x + StrongClose;
    forall i | 0 <= i < |t| ensures t[i] != '*' {
      if i < |StrongOpen| {
      } else if i < |StrongOpen| + |x| {
        assert t[i] == x[i - |StrongOpen|];
      } else {
        assert t[i] == StrongClose[i - |StrongOpen| - |x|];
      }
    }
    DelimPassIdentity(t, "*", EmOpen, EmClose);
  }

  /** A delimiter substitution copies a first character that cannot open the delimiter. */
  lemma DelimPassCopy(t: string, d: string, open: string, close: string)
    requires |d| > 0 && t != [] && t[0] != d[0]
    ensures DelimPass(t, d, open, close) == [t[0]] + DelimPass(t[1..], d, open, close)
  {
    assert |d| <= |t| ==> t[..|d|][0] == t[0];
    assert !StartsWith(t, d);
  }

  /** A delimiter substitution copies a prefix that holds no character of the delimiter's first kind. */
  lemma {:induction false} DelimPassPlainPrefix(u: string, s: string, d: string, open: string, close: string)
    requires |d| > 0 && NoChar(u, d[0])
    ensures DelimPass(u + s, d, open, close) == u + DelimPass(s, d, open, close)
    decreases |u|
  {
    if u != [] {
      var t := u + s;
      assert t[0] == u[0];
      DelimPassCopy(t, d, open, close);
      assert t[1..] == u[1..] + s;
      DelimPassPlainPrefix(u[1..], s, d, open, close);
      calc {
        DelimPass(t, d, open, close);
        [u[0]] + DelimPass(u[1..] + s, d, open, close);
        [u[0]] + (u[1..] + DelimPass(s, d, open, close));
        { assert u == [u[0]] + u[1..]; }
        u + DelimPass(s, d, open, close);
      }
    } else {
      assert u + s == s;
    }
  }

  /** The `**` closing `**x` is the one right after `x`, whatever follows it. */
  lemma BoldClosesBefore(x: string, v: string)
    requires NoChar(x, '*') && NoLineTerm(x)
    ensures FindOnLine("**" + x + "**" + v, 2, "**") == Some(2 + |x|)
  {
    var d := "**";
    var s := d + x + d + v;
    assert s[2..2 + |x|] == x;
    assert s[2 + |x|..2 + |x| + 2] == d;
    forall k | 2 <= k < 2 + |x| ensures !Occurs(s, d, k) {
      assert s[k] == x[k - 2];
      if k + 2 <= |s| { assert s[k..k + 2][0] == s[k]; }
    }
    FindOnLineAt(s, 2, d, 2 + |x|);
  }

  /** The bold pass turns a `**x**` span between texts without `*` into `<strong>`. */
  lemma BoldOfSpan(u: string, x: string, v: string)
    requires NoChar(u, '*') && NoChar(x, '*') && NoChar(v, '*') && NoLineTerm(x)
    ensures Bold(u + "**" + x + "**" + v) == u + StrongOpen + x + StrongClose + v
  {
    var s := "**" + x + "**" + v;
    assert u + "**" + x + "**" + v == u + s;
    DelimPassPlainPrefix(u, s, "**", StrongOpen, StrongClose);
    BoldClosesBefore(x, v);
    assert StartsWith(s, "**");
    assert s[2..2 + |x|] == x;
    assert s[2 + |x| + 2..] == v;
    DelimPassIdentity(v, "**", StrongOpen, StrongClose);
  }

  /** Main-text order: a bold span between texts without `*` becomes `<strong>`, and the rest is copied. */
  lemma BoldSpan(u: string, x: string, v: string)
    requires NoChar(u, '*') && NoChar(x, '*') && NoChar(v, '*') && NoLineTerm(x)
    ensures Italic(Bold(u + "**" + x + "**" + v)) == u + StrongOpen + x + StrongClose + v
  {
    BoldOfSpan(u, x, v);
    NoCharConcat(u, StrongOpen, '*');
    NoCharConcat(u + StrongOpen, x, '*');
    NoCharConcat(u + StrongOpen + x, StrongClose, '*');
    NoCharConcat(u + StrongOpen + x + StrongClose, v, '*');
    DelimPassIdentity(u + StrongOpen + x + StrongClose + v, "*", EmOpen, EmClose);
  }

  /** The link pattern matches the whole of `[label](url)` when the parts are plain. */
  lemma LinkAtWhole(text: string, url: string)
    requires NoChar(text, ']') && NoLineTerm(text)
    requires NoChar(url, ')') && NoLineTerm(url)
    ensures LinkAt("[" + text + "](" + url + ")") == Some(LinkMatch(text, url, |text| + |url| + 4))
  {
    var s := "[" + text + "](" + url + ")";
    var j := 1 + |text|;
    var k := j + 2 + |url|;
    assert s[1..j] == text;
    assert s[j..j + 2] == "](";
    assert s[j + 2..k] == url;
    assert s[k..] == ")";
    forall i | 1 <= i < j ensures !Occurs(s, "](", i) {
      assert s[i] == text[i - 1];
    }
    FindOnLineAt(s, 1, "](", j);
    forall i | j + 2 <= i < k ensures !Occurs(s, ")", i) {
      assert s[i] == url[i - j - 2];
    }
    FindOnLineAt(s, j + 2, ")", k);
  }

  /** `[label](url)` with a plain text and target becomes exactly one anchor. */
  lemma LinkWhole(text: string, url: string)
    requires NoChar(text, ']') && NoLineTerm(text)
    requires NoChar(url, ')') && NoLineTerm(url)
    ensures LinkPass("[" + text + "](" + url + ")") == Anchor(url, text)
  {
    var s := "[" + text + "](" + url + ")";
    LinkAtWhole(text, url);
    var m := LinkAt(s).value;
    assert m.text == text && m.url == url && m.end == |s|;
    assert s[0] == '[';
    LinkPassMatch(s);
    assert s[m.end..] == [];
  }

  /** At a link match the pass emits the anchor and continues after the match. */
  lemma LinkPassMatch(s: string)
    requires s != [] && s[0] == '[' && LinkAt(s).Some?
    ensures LinkPass(s) == Anchor(LinkAt(s).value.url, LinkAt(s).value.text) + LinkPass(s[LinkAt(s).value.end..])
  {
  }
}
