// `formatContent` of components/common/ResultDisplay.tsx:17-76: the table pass, then a
// chain of global replaces. Line-anchored patterns (`^` with the `m` flag) carry a flag
// saying whether the scan stands at a line start.
module Markdown {
  import opened Strings
  import opened Inline
  import opened Tables

  const H3Open := "<h3 class=\"text-lg font-semibold mt-4 mb-2\">"
  const H3Close := "</h3>"
  const H2Open := "<h2 class=\"text-xl font-bold mt-6 mb-3\">"
  const H2Close := "</h2>"
  const H1Open := "<h1 class=\"text-2xl font-bold mt-8 mb-4\">"
  const H1Close := "</h1>"
  const ItemOpen := "<li class=\"ml-6 list-disc\">"
  const ItemClose := "</li>"
  const Br := "<br>"

  /**
   * `.replace(/^M(.*$)/gim, open + '$1' + close)` for a literal marker `M`: at a line start
   * the marker and the rest of its line become `open + rest + close`. The scan resumes at
   * the line terminator, where `^` does not hold.
   */
  function LinePass(s: string, marker: string, open: string, close: string, atLineStart: bool): string
    requires |marker| > 0
    decreases |s|
  {
    if s == [] then []
    else if atLineStart && StartsWith(s, marker) then
      var k := LineEnd(s, |marker|);
      open + s[|marker|..k] + close + LinePass(s[k..], marker, open, close, false)
    else [s[0]] + LinePass(s[1..], marker, open, close, IsLineTerm(s[0]))
  }

  /** Lines 63-65: `### `, then `## `, then `# `. */
  function Headings(s: string): string {
    var h3 := LinePass(s, "### ", H3Open, H3Close, true);
    var h2 := LinePass(h3, "## ", H2Open, H2Close, true);
    LinePass(h2, "# ", H1Open, H1Close, true)
  }

  /** Line 69: `- ` items. */
  function ListItems(s: string): string {
    LinePass(s, "- ", ItemOpen, ItemClose, true)
  }

  /** Line 70: `/(\r\n|\n|\r)/gm` to `<br>`; the alternation tries `\r\n` first, so it is one break. */
  function Newlines(s: string): (r: string)
    ensures NoChar(r, '\n') && NoChar(r, '\r')
    decreases |s|
  {
    if s == [] then []
    else if StartsWith(s, "\r\n") then Br + Newlines(s[2..])
    else if s[0] == '\n' || s[0] == '\r' then Br + Newlines(s[1..])
    else [s[0]] + Newlines(s[1..])
  }

  /** What follows a maximal run of `<br>`. */
  function SkipBreaks(s: string): (r: string)
    ensures |r| <= |s| && r == s[|s| - |r|..]
    ensures StartsWith(s, Br) ==> |r| <= |s| - 4
    ensures !StartsWith(r, Br)
    decreases |s|
  {
    if StartsWith(s, Br) then SkipBreaks(s[4..]) else s
  }

  /** Line 71: `/(<br>){2,}/g` to `<br><br>`; the group is greedy, so the whole run is replaced. */
  function Collapse(s: string): string
    decreases |s|
  {
    if s == [] then []
    else if StartsWith(s, Br + Br) then Br + Br + Collapse(SkipBreaks(s))
    else [s[0]] + Collapse(s[1..])
  }

  /** `.replace(/P/g, rep)` for a literal pattern `P`. */
  function ReplaceAll(s: string, pat: string, rep: string): string
    requires |pat| > 0
    decreases |s|
  {
    if s == [] then []
    else if StartsWith(s, pat) then rep + ReplaceAll(s[|pat|..], pat, rep)
    else [s[0]] + ReplaceAll(s[1..], pat, rep)
  }

  /** Lines 71-73. */
  function PostProcess(s: string): string {
    ReplaceAll(ReplaceAll(Collapse(s), "<br><li", "<li"), "</div><br>", "</div>")
  }

  /** Lines 63-68: the headings, then links, bold and italic, over all text, table markup included. */
  function MainPass(s: string): string {
    Italic(Bold(LinkPass(Headings(s))))
  }

  /** The whole of `formatContent`, in the order of lines 21-73; its output never holds three consecutive `<br>`. */
  function Render(text: string): (r: string)
    ensures NoTripleBreak(r)
  {
    var tables := TablePass(text, true);
    var inline := MainPass(tables);
    PostProcessNoTriple(Newlines(ListItems(inline)));
    PostProcess(Newlines(ListItems(inline)))
  }


  // ----- no three consecutive breaks -----

  const Br3 := "<br><br><br>"

  /** No suffix of `s` begins with three `<br>`. */
  predicate NoTripleBreak(s: string)
    decreases |s|
  {
    s == [] || (!StartsWith(s, Br3) && NoTripleBreak(s[1..]))
  }

  /** Starting with `a + b` is starting with `a` and then with `b`. */
  lemma StartsWithParts(t: string, a: string, b: string)
    ensures StartsWith(t, a + b) <==> StartsWith(t, a) && StartsWith(t[|a|..], b)
  {
    if |t| >= |a| + |b| {
      assert t[..|a| + |b|] == t[..|a|] + t[|a|..][..|b|];
    }
  }

  lemma {:induction false} NoTripleSuffix(s: string, k: nat)
    requires NoTripleBreak(s) && k <= |s|
    ensures NoTripleBreak(s[k..])
    decreases k
  {
    if k > 0 {
      NoTripleSuffix(s[1..], k - 1);
      assert s[1..][k - 1..] == s[k..];
    }
  }

  /** Text without `<` in front cannot start a triple. */
  lemma {:induction false} NoTripleAfterPlain(u: string, x: string)
    requires NoChar(u, '<') && NoTripleBreak(x)
    ensures NoTripleBreak(u + x)
    decreases |u|
  {
    if u != [] {
      NoTripleAfterPlain(u[1..], x);
      var y := u + x;
      assert y[1..] == u[1..] + x;
      assert NoTripleBreak(y[1..]);
      assert y[0] == u[0] && Br3[0] == '<';
      assert !StartsWith(y, Br3);
      assert y != [];
    } else {
      assert u + x == x;
    }
  }

  /** `Collapse` either opens with `<` or copies the first character. */
  lemma CollapseFirst(t: string)
    requires t != []
    ensures StartsWith(t, Br + Br) ==> Collapse(t)[0] == '<'
    ensures !StartsWith(t, Br + Br) ==> Collapse(t) == [t[0]] + Collapse(t[1..])
  {
  }

  /** One character of a `<`-free prefix of the output is copied from the input. */
  lemma CollapsePlainStep(t: string, w: string)
    requires w != [] && NoChar(w, '<') && StartsWith(Collapse(t), w)
    ensures t != [] && t[0] == w[0] && StartsWith(Collapse(t[1..]), w[1..])
    ensures Collapse(t) == [t[0]] + Collapse(t[1..])
  {
    var c := Collapse(t);
    var c1 := Collapse(t[1..]);
    assert t != [];
    CollapseFirst(t);
    assert c[0] == w[0] && w[0] != '<';
    assert c == [t[0]] + c1;
    assert c1[..|w| - 1] == c[1..|w|] == w[1..];
  }

  /** A prefix free of `<` passes `Collapse` unchanged and comes from the same prefix of the input. */
  lemma {:induction false} CollapsePlainPrefix(t: string, w: string)
    requires NoChar(w, '<') && StartsWith(Collapse(t), w)
    ensures StartsWith(t, w) && Collapse(t) == w + Collapse(t[|w|..])
    decreases |w|
  {
    if w != [] {
      CollapsePlainStep(t, w);
      CollapsePlainPrefix(t[1..], w[1..]);
      assert t[1..][|w| - 1..] == t[|w|..];
      ConsPrefix(t, w, Collapse(t), Collapse(t[1..]), Collapse(t[|w|..]));
    }
  }

  /** Putting the first character back in front of a prefix and its output. */
  lemma ConsPrefix(t: string, w: string, c: string, c1: string, rest: string)
    requires w != [] && t != [] && t[0] == w[0] && StartsWith(t[1..], w[1..])
    requires c == [t[0]] + c1 && c1 == w[1..] + rest
    ensures StartsWith(t, w) && c == w + rest
  {
    assert [t[0]] + w[1..] == w;
    assert t[..|w|] == [t[0]] + t[1..][..|w| - 1];
  }

  /** `<` in front of `br>…` is a break in front. */
  lemma ConsBreak(c: char, x: string)
    requires c == '<'
    ensures [c] + ("br>" + x) == Br + x
  {
  }

  /** When `t` starts with `<` and its tail collapses to something starting `br>`, `t` starts with a break. */
  lemma CollapseBreakStep(t: string)
    requires t != [] && t[0] == '<' && !StartsWith(t, Br + Br)
    requires StartsWith(Collapse(t[1..]), "br>")
    ensures StartsWith(t, Br) && Collapse(t) == Br + Collapse(t[4..])
  {
    var u := t[1..];
    CollapsePlainPrefix(u, "br>");
    assert u[3..] == t[4..];
    var x := Collapse(t[4..]);
    assert Collapse(u) == "br>" + x;
    CollapseFirst(t);
    ConsBreak(t[0], x);
    assert [t[0]] == "<" && Br == "<" + "br>";
    StartsWithParts(t, "<", "br>");
  }

  /** The output of `Collapse` starts with one (or two) breaks only if its input does. */
  lemma {:induction false} CollapseHead(t: string)
    ensures StartsWith(Collapse(t), Br) ==> StartsWith(t, Br)
    ensures StartsWith(Collapse(t), Br + Br) ==> StartsWith(t, Br + Br)
    decreases |t|
  {
    if t != [] && !StartsWith(t, Br + Br) {
      var c1 := Collapse(t[1..]);
      assert Collapse(t) == [t[0]] + c1;
      if t[0] == '<' && StartsWith(c1, "br>") {
        CollapseBreakStep(t);
        CollapseHead(t[4..]);
        StartsWithParts(Collapse(t), Br, Br);
        StartsWithParts(t, Br, Br);
      } else {
        assert Br == "<" + "br>";
        StartsWithParts(Collapse(t), "<", "br>");
      }
    }
  }

  /** `<br><br>` followed by text that does not start with `<br>` holds no triple. */
  lemma BreakPairNoTriple(c: string)
    requires NoTripleBreak(c) && !StartsWith(c, Br)
    ensures NoTripleBreak(Br + Br + c)
  {
    var x := Br + c;
    assert x[1..] == "br>" + c;
    NoTripleAfterPlain("br>", c);
    StartsWithParts(x, Br, Br + Br);
    StartsWithParts(c, Br, Br);
    assert Br3 == Br + (Br + Br);
    var y := Br + x;
    assert y == Br + Br + c;
    assert y[1..] == "br>" + x;
    NoTripleAfterPlain("br>", x);
    StartsWithParts(y, Br + Br, Br);
    assert Br3 == (Br + Br) + Br;
    assert y[8..] == c;
  }

  /** A step of `Collapse` that copies one character does not start a triple. */
  lemma CollapseCopyStep(s: string)
    requires s != [] && !StartsWith(s, Br + Br)
    ensures !StartsWith([s[0]] + Collapse(s[1..]), Br3)
  {
    var c := Collapse(s[1..]);
    assert Br3 == "<" + "br><br><br>";
    StartsWithParts([s[0]] + c, "<", "br><br><br>");
    assert ([s[0]] + c)[1..] == c;
    if s[0] == '<' && StartsWith(c, "br>") {
      CollapseBreakStep(s);
      CollapseHead(s[4..]);
      assert s[1..][3..] == s[4..];
      StartsWithParts(Collapse(s), Br, Br + Br);
      StartsWithParts(s, Br, Br);
      assert Br3 == Br + (Br + Br);
    } else {
      assert "br><br><br>" == "br>" + "<br><br>";
      StartsWithParts(c, "br>", "<br><br>");
    }
  }

  /** Line 71 leaves no run of three breaks, whatever its input. */
  lemma {:induction false} CollapseNoTriple(s: string)
    ensures NoTripleBreak(Collapse(s))
    decreases |s|
  {
    if s == [] {
    } else if StartsWith(s, Br + Br) {
      var rest := SkipBreaks(s);
      CollapseNoTriple(rest);
      CollapseHead(rest);
      BreakPairNoTriple(Collapse(rest));
    } else {
      var c := Collapse(s[1..]);
      CollapseNoTriple(s[1..]);
      assert Collapse(s) == [s[0]] + c;
      assert ([s[0]] + c)[1..] == c;
      CollapseCopyStep(s);
    }
  }

  /** The replacements of lines 72-73 begin with `<` and then cannot continue a `<br>`. */
  predicate SafeReplacement(pat: string, rep: string) {
    |pat| > 0 && pat[0] == '<' && |rep| >= 2 && rep[0] == '<' && rep[1] != 'b' && NoChar(rep[1..], '<')
  }

  lemma {:induction false} ReplacePlainPrefix(t: string, pat: string, rep: string, w: string)
    requires SafeReplacement(pat, rep)
    requires NoChar(w, '<') && StartsWith(ReplaceAll(t, pat, rep), w)
    ensures StartsWith(t, w) && ReplaceAll(t, pat, rep) == w + ReplaceAll(t[|w|..], pat, rep)
    decreases |w|
  {
    if w != [] {
      var r := ReplaceAll(t, pat, rep);
      assert t != [];
      assert r[0] == w[0];
      assert !StartsWith(t, pat);
      assert r == [t[0]] + ReplaceAll(t[1..], pat, rep);
      assert r[1..] == ReplaceAll(t[1..], pat, rep);
      ReplacePlainPrefix(t[1..], pat, rep, w[1..]);
      assert t[1..][|w| - 1..] == t[|w|..];
    }
  }

  /** A copied `<` followed by replaced text starting `br>` is a break copied from the input. */
  lemma ReplaceHeadCopy(t: string, pat: string, rep: string)
    requires SafeReplacement(pat, rep)
    requires t != [] && t[0] == '<' && StartsWith(ReplaceAll(t[1..], pat, rep), "br>")
    ensures StartsWith(t, Br) && [t[0]] + ReplaceAll(t[1..], pat, rep) == Br + ReplaceAll(t[4..], pat, rep)
  {
    ReplacePlainPrefix(t[1..], pat, rep, "br>");
    assert t[1..][3..] == t[4..];
    assert t[..4] == [t[0]] + t[1..][..3];
  }

  /** When the output of a replacement starts with a break, so does its input, and the break is copied. */
  lemma ReplaceHead(t: string, pat: string, rep: string)
    requires SafeReplacement(pat, rep)
    ensures StartsWith(ReplaceAll(t, pat, rep), Br) ==>
      StartsWith(t, Br) && ReplaceAll(t, pat, rep) == Br + ReplaceAll(t[4..], pat, rep)
  {
    if t != [] && !StartsWith(t, pat) {
      var r1 := ReplaceAll(t[1..], pat, rep);
      var r := [t[0]] + r1;
      assert ReplaceAll(t, pat, rep) == r;
      assert Br == "<" + "br>";
      StartsWithParts(r, "<", "br>");
      assert r[1..] == r1;
      if t[0] == '<' && StartsWith(r1, "br>") {
        ReplaceHeadCopy(t, pat, rep);
      }
    } else if t != [] {
      var r := ReplaceAll(t, pat, rep);
      assert r == rep + ReplaceAll(t[|pat|..], pat, rep);
      assert r[1] == rep[1];
    }
  }

  /** A replacement's output starts with two breaks only if its input does. */
  lemma ReplaceDoubleHead(t: string, pat: string, rep: string)
    requires SafeReplacement(pat, rep)
    ensures StartsWith(ReplaceAll(t, pat, rep), Br + Br) ==> StartsWith(t, Br + Br)
  {
    var r := ReplaceAll(t, pat, rep);
    ReplaceHead(t, pat, rep);
    StartsWithParts(r, Br, Br);
    if StartsWith(t, Br) {
      ReplaceHead(t[4..], pat, rep);
      StartsWithParts(t, Br, Br);
    }
  }

  /** A copied `<` that the replaced rest turns into `<br>` was a break of the input, so no triple follows. */
  lemma ReplaceCopyBreak(s: string, pat: string, rep: string)
    requires SafeReplacement(pat, rep) && NoTripleBreak(s)
    requires s != [] && s[0] == '<' && StartsWith(ReplaceAll(s[1..], pat, rep), "br>")
    ensures !StartsWith(ReplaceAll(s[1..], pat, rep), "br>" + Br + Br)
  {
    var c := ReplaceAll(s[1..], pat, rep);
    ReplacePlainPrefix(s[1..], pat, rep, "br>");
    assert s[1..][3..] == s[4..];
    var d := ReplaceAll(s[4..], pat, rep);
    assert c == "br>" + d;
    StartsWithParts(c, "br>", Br + Br);
    assert c[3..] == d;
    ReplaceDoubleHead(s[4..], pat, rep);
    assert StartsWith(s, Br) by { assert s[..4] == [s[0]] + s[1..][..3]; }
    StartsWithParts(s, Br, Br + Br);
    assert Br3 == Br + (Br + Br);
  }

  /** A character in front of `c` starts a triple only if it is `<` and `c` goes on with the rest of one. */
  lemma ConsTriple(x: char, c: string)
    ensures StartsWith([x] + c, Br3) ==> x == '<' && StartsWith(c, "br>") && StartsWith(c, "br>" + Br + Br)
  {
    var u := [x] + c;
    assert Br3 == "<" + ("br>" + Br + Br);
    StartsWithParts(u, "<", "br>" + Br + Br);
    assert u[1..] == c;
    StartsWithParts(c, "br>", Br + Br);
  }

  /** A step of a replacement that copies one character does not start a triple. */
  lemma ReplaceCopyStep(s: string, pat: string, rep: string)
    requires SafeReplacement(pat, rep) && NoTripleBreak(s)
    requires s != [] && !StartsWith(s, pat)
    ensures !StartsWith([s[0]] + ReplaceAll(s[1..], pat, rep), Br3)
  {
    ConsTriple(s[0], ReplaceAll(s[1..], pat, rep));
    if s[0] == '<' && StartsWith(ReplaceAll(s[1..], pat, rep), "br>") {
      ReplaceCopyBreak(s, pat, rep);
    }
  }

  /** A character in front of a text without a triple starts none unless it starts one right there. */
  lemma NoTripleCons(x: char, c: string)
    requires NoTripleBreak(c) && !StartsWith([x] + c, Br3)
    ensures NoTripleBreak([x] + c)
  {
    assert ([x] + c)[1..] == c;
  }

  /** A matched pattern becomes the replacement, which cannot start or complete a triple. */
  lemma ReplaceMatchStep(s: string, pat: string, rep: string)
    requires SafeReplacement(pat, rep) && StartsWith(s, pat)
    requires NoTripleBreak(ReplaceAll(s[|pat|..], pat, rep))
    ensures NoTripleBreak(ReplaceAll(s, pat, rep))
  {
    var x := ReplaceAll(s[|pat|..], pat, rep);
    var y := rep + x;
    assert ReplaceAll(s, pat, rep) == y;
    NoTripleAfterPlain(rep[1..], x);
    assert y[1..] == rep[1..] + x;
    assert y[1] == rep[1];
    assert !StartsWith(y, Br3);
  }

  /** Lines 72-73 delete a `<br>` next to a fixed tag; they never join breaks into a triple. */
  lemma {:induction false} ReplaceKeepsNoTriple(s: string, pat: string, rep: string)
    requires SafeReplacement(pat, rep) && NoTripleBreak(s)
    ensures NoTripleBreak(ReplaceAll(s, pat, rep))
    decreases |s|
  {
    if s == [] {
    } else if StartsWith(s, pat) {
      NoTripleSuffix(s, |pat|);
      ReplaceKeepsNoTriple(s[|pat|..], pat, rep);
      ReplaceMatchStep(s, pat, rep);
    } else {
      var c := ReplaceAll(s[1..], pat, rep);
      NoTripleSuffix(s, 1);
      ReplaceKeepsNoTriple(s[1..], pat, rep);
      assert ReplaceAll(s, pat, rep) == [s[0]] + c;
      ReplaceCopyStep(s, pat, rep);
      NoTripleCons(s[0], c);
    }
  }

  /** Both clean-up replacements of lines 72-73 are safe. */
  lemma CleanUpsSafe()
    ensures SafeReplacement("<br><li", "<li")
    ensures SafeReplacement("</div><br>", "</div>")
  {
    assert "<li"[1..] == "li";
    assert "</div>"[1..] == "/div>";
  }

  /** Lines 71-73 leave no run of three breaks, whatever their input. */
  lemma PostProcessNoTriple(n: string)
    ensures NoTripleBreak(PostProcess(n))
  {
    var c := Collapse(n);
    CollapseNoTriple(n);
    CleanUpsSafe();
    ReplaceKeepsNoTriple(c, "<br><li", "<li");
    ReplaceKeepsNoTriple(ReplaceAll(c, "<br><li", "<li"), "</div><br>", "</div>");
  }

  // ----- what each pass does to text it does not concern -----

  /** Text without the marker's first character passes a line substitution unchanged. */
  lemma {:induction false} LinePassIdentity(s: string, marker: string, open: string, close: string, atLineStart: bool)
    requires |marker| > 0 && NoChar(s, marker[0])
    ensures LinePass(s, marker, open, close, atLineStart) == s
    decreases |s|
  {
    if s != [] {
      assert !StartsWith(s, marker);
      LinePassIdentity(s[1..], marker, open, close, IsLineTerm(s[0]));
    }
  }

  /** A single line that does not open with the marker (or not at a line start) is copied. */
  lemma {:induction false} LinePassOneLine(s: string, marker: string, open: string, close: string, atLineStart: bool)
    requires |marker| > 0 && NoLineTerm(s)
    requires atLineStart ==> !StartsWith(s, marker)
    ensures LinePass(s, marker, open, close, atLineStart) == s
    decreases |s|
  {
    if s != [] {
      LinePassOneLine(s[1..], marker, open, close, false);
    }
  }

  /** A line opening with the marker becomes `open + rest + close`. */
  lemma LinePassWholeLine(marker: string, x: string, open: string, close: string)
    requires |marker| > 0 && NoLineTerm(x)
    ensures LinePass(marker + x, marker, open, close, true) == open + x + close
  {
    var s := marker + x;
    assert StartsWith(s, marker);
    var k := LineEnd(s, |marker|);
    forall i | |marker| <= i < |s| ensures !IsLineTerm(s[i]) {
      assert s[i] == x[i - |marker|];
    }
    assert s[|marker|..k] == x;
    assert s[k..] == [];
  }

  /** Literal markup around one line holds no line terminator. */
  lemma WrappedLine(open: string, x: string, close: string)
    requires NoLineTerm(open) && NoLineTerm(x) && NoLineTerm(close)
    ensures NoLineTerm(open + x + close)
  {
    var t := open + x + close;
    forall i | 0 <= i < |t| ensures !IsLineTerm(t[i]) {
      if i < |open| {
        assert t[i] == open[i];
      } else if i < |open| + |x| {
        assert t[i] == x[i - |open|];
      } else {
        assert t[i] == close[i - |open| - |x|];
      }
    }
  }

  /** The level-3 heading tags hold no line break. */
  lemma H3TagsOneLine()
    ensures NoLineTerm(H3Open) && NoLineTerm(H3Close)
  {
  }

  /** The level-2 heading tags hold no line break. */
  lemma H2TagsOneLine()
    ensures NoLineTerm(H2Open) && NoLineTerm(H2Close)
  {
  }

  /** `### x` becomes a level-3 heading; the later `##` and `#` passes leave it alone. */
  lemma HeadingLevel3(x: string)
    requires NoLineTerm(x)
    ensures Headings("### " + x) == H3Open + x + H3Close
  {
    LinePassWholeLine("### ", x, H3Open, H3Close);
    var t := H3Open + x + H3Close;
    H3TagsOneLine();
    WrappedLine(H3Open, x, H3Close);
    assert t[0] == H3Open[0] == '<';
    LinePassOneLine(t, "## ", H2Open, H2Close, true);
    LinePassOneLine(t, "# ", H1Open, H1Close, true);
  }

  /** `## x` is not taken for `### `, becomes a level-2 heading and is left alone by `#`. */
  lemma HeadingLevel2(x: string)
    requires NoLineTerm(x)
    ensures Headings("## " + x) == H2Open + x + H2Close
  {
    var s := "## " + x;
    assert s[2] == ' ';
    assert NoLineTerm(s) by { WrappedLine("## ", x, []); assert "## " + x + [] == s; }
    LinePassOneLine(s, "### ", H3Open, H3Close, true);
    LinePassWholeLine("## ", x, H2Open, H2Close);
    var t := H2Open + x + H2Close;
    H2TagsOneLine();
    WrappedLine(H2Open, x, H2Close);
    assert t[0] == '<' by { assert t[0] == t[..1][0]; assert t[..1] == "<"; }
    LinePassOneLine(t, "# ", H1Open, H1Close, true);
  }

  /** `# x` is taken by neither longer marker and becomes a level-1 heading. */
  lemma HeadingLevel1(x: string)
    requires NoLineTerm(x)
    ensures Headings("# " + x) == H1Open + x + H1Close
  {
    var s := "# " + x;
    assert s[1] == ' ';
    assert NoLineTerm(s) by { WrappedLine("# ", x, []); assert "# " + x + [] == s; }
    LinePassOneLine(s, "### ", H3Open, H3Close, true);
    LinePassOneLine(s, "## ", H2Open, H2Close, true);
    LinePassWholeLine("# ", x, H1Open, H1Close);
  }

  /** `- x` on its own line becomes one list item. */
  lemma ListItemLine(x: string)
    requires NoLineTerm(x)
    ensures ListItems("- " + x) == ItemOpen + x + ItemClose
  {
    LinePassWholeLine("- ", x, ItemOpen, ItemClose);
  }

  /** The break scan is compositional wherever the left part does not end in a lone `\r`. */
  lemma {:induction false} NewlinesConcat(a: string, t: string)
    requires a == [] || a[|a| - 1] != '\r'
    ensures Newlines(a + t) == Newlines(a) + Newlines(t)
    decreases |a|, 1
  {
    if a == [] {
      assert a + t == t;
    } else if StartsWith(a, "\r\n") {
      NewlinesConcatPair(a, t);
    } else {
      NewlinesConcatOne(a, t);
    }
  }

  /** `NewlinesConcat` when `a` opens with `\r\n`. */
  lemma {:induction false} NewlinesConcatPair(a: string, t: string)
    requires a != [] && a[|a| - 1] != '\r' && StartsWith(a, "\r\n")
    ensures Newlines(a + t) == Newlines(a) + Newlines(t)
    decreases |a|, 0
  {
    var s := a + t;
    assert s[2..] == a[2..] + t;
    assert StartsWith(s, "\r\n") by { assert s[..2] == a[..2]; }
    NewlinesConcat(a[2..], t);
    assert Newlines(s) == Br + Newlines(s[2..]);
    assert Newlines(a) == Br + Newlines(a[2..]);
  }

  /** `NewlinesConcat` when `a` opens with one character that is not the start of `\r\n`. */
  lemma {:induction false} NewlinesConcatOne(a: string, t: string)
    requires a != [] && a[|a| - 1] != '\r' && !StartsWith(a, "\r\n")
    ensures Newlines(a + t) == Newlines(a) + Newlines(t)
    decreases |a|, 0
  {
    var s := a + t;
    assert s[0] == a[0];
    assert s[1..] == a[1..] + t;
    NoPairAcross(a, t);
    NewlinesConcat(a[1..], t);
    NewlinesUnfoldOne(s);
    NewlinesUnfoldOne(a);
  }

  /** A left part that does not open `\r\n` and does not end in `\r` opens no `\r\n` with what follows. */
  lemma NoPairAcross(a: string, t: string)
    requires a != [] && a[|a| - 1] != '\r' && !StartsWith(a, "\r\n")
    ensures !StartsWith(a + t, "\r\n")
  {
    if |a| >= 2 {
      assert (a + t)[..2] == a[..2];
    } else {
      assert (a + t)[0] == a[0] != '\r';
    }
  }

  /** One step of the break scan at a character that does not open `\r\n`. */
  lemma NewlinesUnfoldOne(s: string)
    requires s != [] && !StartsWith(s, "\r\n")
    ensures Newlines(s) == (if s[0] == '\n' || s[0] == '\r' then Br else [s[0]]) + Newlines(s[1..])
  {
  }

  /** Each of `\r\n`, `\n` and `\r` is one break; a `\r` directly before `\n` is not a break of its own. */
  lemma NewlinesBreak(a: string, nl: string, t: string)
    requires a == [] || a[|a| - 1] != '\r'
    requires nl == "\r\n" || nl == "\n" || (nl == "\r" && (t == [] || t[0] != '\n'))
    ensures Newlines(a + nl + t) == Newlines(a) + Br + Newlines(t)
  {
    NewlinesConcat(a, nl + t);
    assert a + nl + t == a + (nl + t);
    NewlinesLead(nl, t);
  }

  /** A text that opens with a line break scans to one `<br>` and the rest. */
  lemma NewlinesLead(nl: string, t: string)
    requires nl == "\r\n" || nl == "\n" || (nl == "\r" && (t == [] || t[0] != '\n'))
    ensures Newlines(nl + t) == Br + Newlines(t)
  {
    var u := nl + t;
    assert u[|nl|..] == t;
    if nl == "\r" && t != [] {
      assert u[..2] == [u[0], t[0]];
    }
  }

  lemma {:induction false} NewlinesIdentity(s: string)
    requires NoChar(s, '\n') && NoChar(s, '\r')
    ensures Newlines(s) == s
    decreases |s|
  {
    if s != [] {
      NewlinesIdentity(s[1..]);
    }
  }

  lemma {:induction false} CollapseIdentity(s: string)
    requires NoChar(s, '<')
    ensures Collapse(s) == s
    decreases |s|
  {
    if s != [] {
      CollapseIdentity(s[1..]);
    }
  }

  lemma {:induction false} ReplaceIdentity(s: string, pat: string, rep: string)
    requires |pat| > 0 && NoChar(s, pat[0])
    ensures ReplaceAll(s, pat, rep) == s
    decreases |s|
  {
    if s != [] {
      assert !StartsWith(s, pat);
      ReplaceIdentity(s[1..], pat, rep);
    }
  }

  /** The header-cell tags hold no line break, no `*` and no `[`. */
  lemma ThTagsPlain()
    ensures NoLineTerm(ThOpen) && NoLineTerm(ThClose)
    ensures NoChar(ThOpen, '*') && NoChar(ThClose, '*') && NoChar(ThOpen, '[') && NoChar(ThClose, '[')
  {
    ThOpenPlain();
    ThClosePlain();
  }

  /** A printable ASCII character that is neither `*` nor `[`. */
  predicate TagChar(c: char) {
    ' ' <= c <= '~' && c != '*' && c != '['
  }

  predicate TagText(s: string) {
    forall i :: 0 <= i < |s| ==> TagChar(s[i])
  }

  lemma TagTextConcat(a: string, b: string)
    requires TagText(a) && TagText(b)
    ensures TagText(a + b)
  {
    forall i | |a| <= i < |a + b| ensures TagChar((a + b)[i]) {
      assert (a + b)[i] == b[i - |a|];
    }
  }

  lemma ThOpenPlain()
    ensures TagText(ThOpen)
  {
    ThOpenHead();
    ThOpenTail();
    TagTextConcat("<th class=\"border dark:border-gray-600 ", "px-4 py-2 text-left font-semibold\">");
  }

  lemma ThOpenHead()
    ensures TagText("<th class=\"border dark:border-gray-600 ")
  {
  }

  lemma ThOpenTail()
    ensures TagText("px-4 py-2 text-left font-semibold\">")
  {
  }

  lemma ThClosePlain()
    ensures TagText(ThClose)
  {
  }

  /**
   * A header cell is emitted verbatim (lines 38-40), so a `**x**` in it reaches the main
   * pass, which bolds it there (line 67): the cell ends up holding `<strong>x</strong>`.
   */
  lemma HeaderCellBold(x: string)
    requires NoChar(x, '*') && NoChar(x, '[') && NoLineTerm(x)
    ensures MainPass(Th("**" + x + "**")) == ThOpen + StrongOpen + x + StrongClose + ThClose
  {
    var c := ThOpen + "**" + x + "**" + ThClose;
    assert Th("**" + x + "**") == c;
    BoldCellFacts(x, c);
    LinePassOneLine(c, "### ", H3Open, H3Close, true);
    LinePassOneLine(c, "## ", H2Open, H2Close, true);
    LinePassOneLine(c, "# ", H1Open, H1Close, true);
    LinkPassIdentity(c);
    ThTagsPlain();
    BoldSpan(ThOpen, x, ThClose);
  }

  /** A header cell around `**x**` is one line, holds no `[` and opens with `<`. */
  lemma BoldCellFacts(x: string, c: string)
    requires NoChar(x, '[') && NoLineTerm(x)
    requires c == ThOpen + "**" + x + "**" + ThClose
    ensures NoLineTerm(c) && NoChar(c, '[') && c[0] == '<'
  {
    ThTagsPlain();
    var stars: string := "**";
    assert NoLineTerm(stars) && NoChar(stars, '[');
    WrappedLine(ThOpen, stars, x);
    WrappedLine(ThOpen + stars + x, stars, ThClose);
    NoCharConcat(ThOpen, stars, '[');
    NoCharConcat(ThOpen + stars, x, '[');
    NoCharConcat(ThOpen + stars + x, stars, '[');
    NoCharConcat(ThOpen + stars + x + stars, ThClose, '[');
  }

  /** Text with no markup character and a single line. */
  predicate PlainText(s: string) {
    NoChar(s, '#') && NoChar(s, '*') && NoChar(s, '[') && NoChar(s, '|') && NoChar(s, '-')
    && NoChar(s, '<') && NoChar(s, '\n') && NoChar(s, '\r')
  }

  /** Plain text is rendered as itself. */
  lemma RenderPlain(s: string)
    requires PlainText(s)
    ensures Render(s) == s
  {
    TablePassIdentity(s, true);
    LinePassIdentity(s, "### ", H3Open, H3Close, true);
    LinePassIdentity(s, "## ", H2Open, H2Close, true);
    LinePassIdentity(s, "# ", H1Open, H1Close, true);
    LinkPassIdentity(s);
    DelimPassIdentity(s, "**", StrongOpen, StrongClose);
    DelimPassIdentity(s, "*", EmOpen, EmClose);
    LinePassIdentity(s, "- ", ItemOpen, ItemClose, true);
    NewlinesIdentity(s);
    CollapseIdentity(s);
    ReplaceIdentity(s, "<br><li", "<li");
    ReplaceIdentity(s, "</div><br>", "</div>");
  }
}
