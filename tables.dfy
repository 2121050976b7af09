// The table pass of the result renderer (components/common/ResultDisplay.tsx:21-59):
// a multiline global replace of pipe-delimited blocks by an HTML table.
//
// The pattern is  ^\|(.+)\|\s*\n\|( *[-:]+ *\|)+\s*\n((?:\|.*\|\s*\n?)*)  with flags g and m.
// TableMatch below scans it deterministically; the comments on each part say why
// backtracking cannot lead to a different match.
module Tables {
  import opened Strings
  import opened Inline

  /** The last index in `[a, e)` holding `c`. */
  function LastOf(t: string, a: nat, e: nat, c: char): (r: Option<nat>)
    requires a <= e <= |t|
    ensures r.Some? ==> a <= r.value < e && t[r.value] == c
    ensures r.Some? ==> forall k :: r.value < k < e ==> t[k] != c
    ensures r.None? ==> forall k :: a <= k < e ==> t[k] != c
    decreases e
  {
    if e <= a then None
    else if t[e - 1] == c then Some(e - 1)
    else LastOf(t, a, e - 1, c)
  }

  /** The end of the run of `c` starting at `i`. */
  function SkipChar(t: string, i: nat, c: char): (j: nat)
    requires i <= |t|
    ensures i <= j <= |t| && (j == |t| || t[j] != c)
    ensures forall k :: i <= k < j ==> t[k] == c
    decreases |t| - i
  {
    if i < |t| && t[i] == c then SkipChar(t, i + 1, c) else i
  }

  /** The end of the run of `-` and `:` starting at `i`. */
  function DashEnd(t: string, i: nat): (j: nat)
    requires i <= |t|
    ensures i <= j <= |t|
    ensures forall k :: i <= k < j ==> t[k] == '-' || t[k] == ':'
    ensures j == |t| || (t[j] != '-' && t[j] != ':')
    decreases |t| - i
  {
    if i < |t| && (t[i] == '-' || t[i] == ':') then DashEnd(t, i + 1) else i
  }

  /** One separator group ` *[-:]+ *\|` at `i`; the three character classes are disjoint, so it is deterministic. */
  function SepGroup(t: string, i: nat): (r: Option<nat>)
    requires i <= |t|
    ensures r.Some? ==> i < r.value <= |t| && t[r.value - 1] == '|'
  {
    var a := SkipChar(t, i, ' ');
    var b := DashEnd(t, a);
    var c := SkipChar(t, b, ' ');
    if b > a && c < |t| && t[c] == '|' then Some(c + 1) else None
  }

  /**
   * The greedy `( *[-:]+ *\|)+`: as many groups as there are. Giving one back cannot
   * help, because the next group starts with a space, `-` or `:` before any line break,
   * which the following `\s*\n` cannot get past.
   */
  function SepGroups(t: string, i: nat): (j: nat)
    requires i <= |t|
    ensures i <= j <= |t|
    decreases |t| - i
  {
    match SepGroup(t, i)
    case None => i
    case Some(n) => SepGroups(t, n)
  }

  /**
   * The greedy body `(?:\|.*\|\s*\n?)*`: each row runs from a `|` to the last `|` on its
   * line, then swallows all whitespace (line breaks included), so `\n?` is always empty.
   * Nothing follows the body in the pattern, so no row is ever given back.
   */
  function BodyEnd(t: string, x: nat): (m: nat)
    requires x <= |t|
    ensures x <= m <= |t|
    decreases |t| - x
  {
    if x < |t| && t[x] == '|' then
      match LastOf(t, x + 1, LineEnd(t, x + 1), '|')
      case None => x
      case Some(r) => BodyEnd(t, SkipSpace(t, r + 1))
    else x
  }

  /**
   * The header line `^\|(.+)\|\s*\n` and the separator's opening `\|`, tried at the start
   * of `t`: the index of that `|`. `.+` cannot cross a line terminator, and after the
   * closing `|` only whitespace may come before the line break, so that `|` is the last one
   * on the line. The `\s*\n` after it must end right before the separator's `|`, hence at
   * the end of the whitespace run.
   */
  function HeaderEnd(t: string): (r: Option<nat>)
    ensures r.Some? ==> 3 <= r.value < |t| && t[0] == '|' && t[r.value] == '|' && t[r.value - 1] == '\n'
  {
    if t == [] || t[0] != '|' then None
    else
      match LastOf(t, 1, LineEnd(t, 1), '|')
      case None => None
      case Some(q) =>
        var w := SkipSpace(t, q + 1);
        if q < 2 || w == q + 1 || t[w - 1] != '\n' || w == |t| || t[w] != '|' then None
        else Some(w)
  }

  /**
   * The rest of the separator line `( *[-:]+ *\|)+\s*\n` after its `|` at `w`: where
   * the body starts.
   */
  function SepEnd(t: string, w: nat): (r: Option<nat>)
    requires w < |t|
    ensures r.Some? ==> w + 1 < r.value <= |t| && t[r.value - 1] == '\n'
  {
    SepClose(t, w, SepGroups(t, w + 1))
  }

  /** After the groups, which end at `g`: `\s*\n` ends at the last `\n` of the whitespace run. */
  function SepClose(t: string, w: nat, g: nat): (r: Option<nat>)
    requires w < g <= |t|
    ensures r.Some? ==> w + 1 < r.value <= |t| && t[r.value - 1] == '\n'
  {
    if g == w + 1 then None
    else
      match LastOf(t, g, SkipSpace(t, g), '\n')
      case None => None
      case Some(n) => Some(n + 1)
  }

  /** Where the table pattern, tried at the start of `t` (a line start), ends. */
  function TableMatch(t: string): (r: Option<nat>)
    ensures r.Some? ==> 0 < r.value <= |t| && t[0] == '|'
  {
    match HeaderEnd(t)
    case None => None
    case Some(w) =>
      match SepEnd(t, w)
      case None => None
      case Some(x) => Some(BodyEnd(t, x))
  }

  /** `.split('|').slice(1, -1)`: the texts between consecutive pipes. */
  function Inner(pieces: seq<string>): (r: seq<string>)
    ensures |r| == if |pieces| < 2 then 0 else |pieces| - 2
    ensures forall k :: 0 <= k < |r| ==> r[k] == pieces[k + 1]
  {
    if |pieces| < 2 then [] else pieces[1..|pieces| - 1]
  }

  function TrimAll(cells: seq<string>): (r: seq<string>)
    ensures |r| == |cells|
    ensures forall k :: 0 <= k < |r| ==> r[k] == Trim(cells[k])
  {
    if cells == [] then [] else [Trim(cells[0])] + TrimAll(cells[1..])
  }

  /** `line.split('|').slice(1, -1).map(c => c.trim())` */
  function Cells(line: string): seq<string> {
    TrimAll(Inner(Split(line, "|")))
  }

  function CellsOfLines(lines: seq<string>): (r: seq<seq<string>>)
    ensures |r| == |lines|
    ensures forall k :: 0 <= k < |r| ==> r[k] == Cells(lines[k])
  {
    if lines == [] then [] else [Cells(lines[0])] + CellsOfLines(lines[1..])
  }

  datatype Table = Table(header: seq<string>, rows: seq<seq<string>>)

  /** Lines 26-27: the header from the first line, the rows from the third line on. */
  function ParseLines(lines: seq<string>): Table
    requires |lines| >= 1
  {
    Table(Cells(lines[0]), if |lines| <= 2 then [] else CellsOfLines(lines[2..]))
  }

  /** `match.trim().split('\n')` */
  function BlockLines(block: string): (r: seq<string>)
    ensures |r| >= 1
  {
    Split(Trim(block), "\n")
  }

  const TableOpen := "<div class=\"overflow-x-auto my-4\"><table class=\"min-w-full border-collapse text-sm\">"
  const HeadOpen := "<thead><tr class=\"bg-gray-100 dark:bg-gray-700\">"
  const HeadClose := "</tr></thead>"
  const BodyOpen := "<tbody>"
  const RowOpen := "<tr class=\"border-t dark:border-gray-600 even:bg-gray-50 dark:even:bg-gray-900/50\">"
  const RowClose := "</tr>"
  const TableClose := "</tbody></table></div>"

  const ThOpen := "<th class=\"border dark:border-gray-600 " + "px-4 py-2 text-left font-semibold\">"
  const ThClose := "</th>"
  const TdOpen := "<td class=\"border dark:border-gray-600 px-4 py-2 align-top\">"
  const TdClose := "</td>"

  /** A header cell is emitted as it is: header text does not go through `RenderCell`. */
  function Th(h: string): string {
    ThOpen + h + ThClose
  }

  /** `renderCellContent` (lines 29-34): bold, then italic, then links. */
  function RenderCell(c: string): string {
    LinkPass(Italic(Bold(c)))
  }

  function Td(c: string): string {
    TdOpen + RenderCell(c) + TdClose
  }

  /** Each text between `open` and `close`, one after the other. */
  function Wrap(open: string, texts: seq<string>, close: string): string {
    if texts == [] then [] else Wrap(open, texts[..|texts| - 1], close) + (open + texts[|texts| - 1] + close)
  }

  function HeaderHtml(header: seq<string>): string {
    Wrap(ThOpen, header, ThClose)
  }

  /** `f` of each text, one after the other. */
  function ConcatMap(f: string -> string, texts: seq<string>): string {
    if texts == [] then [] else ConcatMap(f, texts[..|texts| - 1]) + f(texts[|texts| - 1])
  }

  function CellsHtml(row: seq<string>): string {
    ConcatMap(Td, row)
  }

  function RowHtml(row: seq<string>): string {
    RowOpen + CellsHtml(row) + RowClose
  }

  /** The body as the `forEach` of lines 44-52 builds it: a row whose cell count differs from `width` adds nothing. */
  function BodyHtml(width: nat, rows: seq<seq<string>>): string {
    if rows == [] then []
    else
      var last := rows[|rows| - 1];
      BodyHtml(width, rows[..|rows| - 1]) + (if |last| == width then RowHtml(last) else [])
  }

  function TableHtml(t: Table): string {
    TableOpen + HeadOpen + HeaderHtml(t.header) + HeadClose + BodyOpen + BodyHtml(|t.header|, t.rows) + TableClose
  }

  /** The replacement the callback returns for a matched block. */
  function BlockHtml(block: string): string {
    TableHtml(ParseLines(BlockLines(block)))
  }

  /** The `headerCells.forEach` loop of lines 38-40. */
  method EmitHeader(header: seq<string>) returns (html: string)
    ensures html == HeaderHtml(header)
  {
    html := [];
    for i := 0 to |header|
      invariant html == HeaderHtml(header[..i])
    {
      assert header[..i + 1][..i] == header[..i];
      html := html + Th(header[i]);
    }
    assert header[..|header|] == header;
  }

  /** The `row.forEach` loop of lines 47-49. */
  method EmitCells(row: seq<string>) returns (html: string)
    ensures html == CellsHtml(row)
  {
    html := [];
    for j := 0 to |row|
      invariant html == CellsHtml(row[..j])
    {
      assert row[..j + 1][..j] == row[..j];
      html := html + Td(row[j]);
    }
    assert row[..|row|] == row;
  }

  /** The `rows.forEach` loop of lines 44-52: a row is emitted only when its cell count equals `width`. */
  method EmitBody(width: nat, rows: seq<seq<string>>) returns (html: string)
    ensures html == BodyHtml(width, rows)
  {
    html := [];
    for k := 0 to |rows|
      invariant html == BodyHtml(width, rows[..k])
    {
      assert rows[..k + 1][..k] == rows[..k];
      var row := rows[k];
      if |row| == width {
        var cells := EmitCells(row);
        html := html + (RowOpen + cells + RowClose);
      }
    }
    assert rows[..|rows|] == rows;
  }

  /**
   * The callback of lines 22-59, which concatenates the table by `+=`. Nothing in it can
   * throw, so the `catch` branch that returns the matched text never runs.
   */
  method ConvertTable(block: string) returns (html: string)
    ensures html == BlockHtml(block)
  {
    var table := ParseLines(BlockLines(block));
    var head := EmitHeader(table.header);
    var body := EmitBody(|table.header|, table.rows);
    html := TableOpen + HeadOpen + head + HeadClose + BodyOpen + body + TableClose;
  }

  /**
   * `formattedText.replace(tableRegex, callback)`: `atLineStart` says whether `^` holds
   * before `s`, that is, whether the text so far is empty or ends with a line terminator.
   */
  function TablePass(s: string, atLineStart: bool): string
    decreases |s|
  {
    if s == [] then []
    else if atLineStart && TableMatch(s).Some? then
      var m := TableMatch(s).value;
      BlockHtml(s[..m]) + TablePass(s[m..], IsLineTerm(s[m - 1]))
    else [s[0]] + TablePass(s[1..], IsLineTerm(s[0]))
  }

  // ----- properties -----

  /** The rows a table keeps, in order: those with exactly as many cells as the header. */
  function KeptRows(width: nat, rows: seq<seq<string>>): seq<seq<string>> {
    if rows == [] then []
    else
      var last := rows[|rows| - 1];
      KeptRows(width, rows[..|rows| - 1]) + (if |last| == width then [last] else [])
  }

  function RowsHtml(rows: seq<seq<string>>): string {
    if rows == [] then [] else RowsHtml(rows[..|rows| - 1]) + RowHtml(rows[|rows| - 1])
  }

  /** A row is kept iff it has the header's cell count; every kept row has exactly that many cells. */
  lemma {:induction false} KeptRowsExactly(width: nat, rows: seq<seq<string>>)
    ensures forall r :: r in KeptRows(width, rows) <==> r in rows && |r| == width
    ensures forall k :: 0 <= k < |KeptRows(width, rows)| ==> |KeptRows(width, rows)[k]| == width
    ensures |KeptRows(width, rows)| <= |rows|
  {
    if rows != [] {
      var init := rows[..|rows| - 1];
      KeptRowsExactly(width, init);
      assert rows == init + [rows[|rows| - 1]];
    }
  }

  /** The body emits exactly the kept rows, in their order, each as one `<tr>`. */
  lemma {:induction false} BodyIsKeptRows(width: nat, rows: seq<seq<string>>)
    ensures BodyHtml(width, rows) == RowsHtml(KeptRows(width, rows))
  {
    if rows != [] {
      var init := rows[..|rows| - 1];
      var last := rows[|rows| - 1];
      BodyIsKeptRows(width, init);
      var kept := KeptRows(width, init);
      if |last| == width {
        assert (kept + [last])[..|kept|] == kept;
      } else {
        assert kept + [] == kept;
      }
    }
  }

  /** Trimming cannot introduce a pipe. */
  lemma TrimKeepsPipeless(p: string)
    requires !Contains(p, "|")
    ensures !Contains(Trim(p), "|")
  {
    InfixFree(p, Lead(p), |Trim(p)|, "|");
  }

  /** Every cell is trimmed and contains no pipe. */
  lemma CellsClean(line: string)
    ensures forall k :: 0 <= k < |Cells(line)| ==>
      !Contains(Cells(line)[k], "|") &&
      (Cells(line)[k] == [] || (!IsSpace(Cells(line)[k][0]) && !IsSpace(Cells(line)[k][|Cells(line)[k]| - 1])))
  {
    var pieces := Split(line, "|");
    SplitPiecesFree(line, "|");
    var inner := Inner(pieces);
    forall k | 0 <= k < |inner| ensures !Contains(Trim(inner[k]), "|") {
      assert inner[k] == pieces[k + 1];
      TrimKeepsPipeless(inner[k]);
    }
  }

  /** A line without pipes (a blank line, for one) has no cells, so it is dropped from any table. */
  lemma PipelessLineHasNoCells(line: string)
    requires !Contains(line, "|")
    ensures Cells(line) == []
  {
    SplitAbsent(line, "|");
  }

  /** The separator line never reaches the output: only lines 0 and 2.. are parsed. */
  lemma SeparatorIgnored(lines: seq<string>, other: string)
    requires |lines| >= 2
    ensures ParseLines(lines[1 := other]) == ParseLines(lines)
  {
    if |lines| > 2 {
      assert lines[1 := other][2..] == lines[2..];
    }
  }

  /** The header is one `<th>` per cell, in order, each holding the cell text verbatim. */
  lemma {:induction false} WrapAppend(open: string, a: seq<string>, b: seq<string>, close: string)
    ensures Wrap(open, a + b, close) == Wrap(open, a, close) + Wrap(open, b, close)
    decreases |b|
  {
    if b == [] {
      assert a + b == a;
    } else {
      WrapAppend(open, a, b[..|b| - 1], close);
      AppendInit(a, b);
      WrapLast(open, a + b, close);
      WrapLast(open, b, close);
    }
  }

  lemma WrapLast(open: string, s: seq<string>, close: string)
    requires s != []
    ensures Wrap(open, s, close) == Wrap(open, s[..|s| - 1], close) + (open + s[|s| - 1] + close)
  {
  }

  /** Dropping the last element of `a + b` drops the last element of `b`. */
  lemma AppendInit(a: seq<string>, b: seq<string>)
    requires b != []
    ensures (a + b)[..|a + b| - 1] == a + b[..|b| - 1] && (a + b)[|a + b| - 1] == b[|b| - 1]
  {
  }

  /** The header of `a + b` is the header of `a` followed by the header of `b`. */
  lemma HeaderHtmlAppend(a: seq<string>, b: seq<string>)
    ensures HeaderHtml(a + b) == HeaderHtml(a) + HeaderHtml(b)
  {
    WrapAppend(ThOpen, a, b, ThClose);
  }

  /** The cells of `a + b` are the cells of `a` followed by the cells of `b`. */
  lemma CellsHtmlAppend(a: seq<string>, b: seq<string>)
    ensures CellsHtml(a + b) == CellsHtml(a) + CellsHtml(b)
  {
    ConcatMapAppend(Td, a, b);
  }

  lemma {:induction false} ConcatMapAppend(f: string -> string, a: seq<string>, b: seq<string>)
    ensures ConcatMap(f, a + b) == ConcatMap(f, a) + ConcatMap(f, b)
    decreases |b|
  {
    if b == [] {
      assert a + b == a;
    } else {
      ConcatMapAppend(f, a, b[..|b| - 1]);
      AppendInit(a, b);
      ConcatMapLast(f, a + b);
      ConcatMapLast(f, b);
    }
  }

  lemma ConcatMapLast(f: string -> string, s: seq<string>)
    requires s != []
    ensures ConcatMap(f, s) == ConcatMap(f, s[..|s| - 1]) + f(s[|s| - 1])
  {
  }

  /** A single cell is one `<td>` holding its rendered text. */
  lemma CellsHtmlOne(c: string)
    ensures CellsHtml([c]) == Td(c)
  {
    assert [c][..0] == [];
    assert ConcatMap(Td, [c]) == ConcatMap(Td, []) + Td(c);
  }

  /** A single header cell is one `<th>` holding its text. */
  lemma HeaderHtmlOne(h: string)
    ensures HeaderHtml([h]) == Th(h)
  {
    assert [h][..0] == [];
    assert HeaderHtml([h]) == Wrap(ThOpen, [], ThClose) + (ThOpen + h + ThClose);
  }

  /** A cell without `*` or `[` is rendered as it is. */
  lemma RenderCellPlain(c: string)
    requires NoChar(c, '*') && NoChar(c, '[')
    ensures RenderCell(c) == c
  {
    DelimPassIdentity(c, "**", StrongOpen, StrongClose);
    DelimPassIdentity(c, "*", EmOpen, EmClose);
    LinkPassIdentity(c);
  }

  /** In a cell too, `**x**` becomes `<strong>x</strong>` and is not then taken for a link or italics. */
  lemma RenderCellBold(x: string)
    requires NoChar(x, '*') && NoChar(x, '[') && NoLineTerm(x)
    ensures RenderCell("**" + x + "**") == StrongOpen + x + StrongClose
  {
    BoldThenItalic(x);
    var t := StrongOpen + x + StrongClose;
    forall i | 0 <= i < |t| ensures t[i] != '[' {
      if i < |StrongOpen| {
      } else if i < |StrongOpen| + |x| {
        assert t[i] == x[i - |StrongOpen|];
      } else {
        assert t[i] == StrongClose[i - |StrongOpen| - |x|];
      }
    }
    LinkPassIdentity(t);
  }

  // ----- well-formed blocks -----

  /** `n` dashes. */
  function Dashes(n: nat): (r: string)
    ensures |r| == n && forall k :: 0 <= k < n ==> r[k] == '-'
  {
    if n == 0 then [] else Dashes(n - 1) + "-"
  }

  /** The separator cells `---|---|`, one per width, after the separator line's first `|`. */
  function SepCells(widths: seq<nat>): string {
    if widths == [] then [] else Dashes(widths[0]) + "|" + SepCells(widths[1..])
  }

  /** The body lines `|row|`, each followed by a line break. */
  function RowLines(rows: seq<string>): string {
    if rows == [] then [] else "|" + rows[0] + "|\n" + RowLines(rows[1..])
  }

  /** A header line, a separator line and the body lines, each ending in a line break. */
  function TableBlock(header: string, widths: seq<nat>, rows: seq<string>): string {
    "|" + header + "|\n|" + SepCells(widths) + "\n" + RowLines(rows)
  }

  /** The header holds at least one character, every separator cell a dash, and no line holds a break. */
  predicate WellFormed(header: string, widths: seq<nat>, rows: seq<string>) {
    header != [] && NoLineTerm(header) && widths != [] &&
    (forall k :: 0 <= k < |widths| ==> widths[k] > 0) &&
    (forall k :: 0 <= k < |rows| ==> NoLineTerm(rows[k]))
  }

  /** What follows a block can neither continue its last line nor start another row. */
  predicate EndsBlock(rest: string) {
    rest == [] || (rest[0] != '|' && !IsSpace(rest[0]))
  }

  /** A well-formed block followed by text that ends it is matched exactly, from its first pipe to its last line break. */
  lemma TableMatchBlock(header: string, widths: seq<nat>, rows: seq<string>, rest: string)
    requires WellFormed(header, widths, rows) && EndsBlock(rest)
    ensures TableMatch(TableBlock(header, widths, rows) + rest) == Some(|TableBlock(header, widths, rows)|)
  {
    var block := TableBlock(header, widths, rows);
    var w, x := BlockStages(block, header, widths, rows, rest);
    TableMatchIs(block + rest, w, x, |block|);
  }

  lemma PrefixAt(block: string, rest: string)
    ensures At(block + rest, 0, block) && Ends(block + rest, |block|, rest)
  {
    forall k | 0 <= k < |block| ensures (block + rest)[0 + k] == block[k] {
    }
    forall k | 0 <= k < |rest| ensures (block + rest)[|block| + k] == rest[k] {
    }
  }

  /** At a line start, a well-formed block becomes its table and the replacement goes on after it. */
  lemma TablePassBlock(header: string, widths: seq<nat>, rows: seq<string>, rest: string)
    requires WellFormed(header, widths, rows) && EndsBlock(rest)
    ensures var block := TableBlock(header, widths, rows);
      TablePass(block + rest, true) == BlockHtml(block) + TablePass(rest, true)
  {
    var block := TableBlock(header, widths, rows);
    var s := block + rest;
    TableMatchBlock(header, widths, rows, rest);
    BlockEndsInBreak(header, widths, rows);
    assert s[..|block|] == block && s[|block|..] == rest;
    assert s[|block| - 1] == '\n';
  }

  /** A block ends with the line break of its last line. */
  lemma BlockEndsInBreak(header: string, widths: seq<nat>, rows: seq<string>)
    ensures var block := TableBlock(header, widths, rows); |block| > 0 && block[|block| - 1] == '\n'
  {
    var prefix := "|" + header + "|\n|" + SepCells(widths) + "\n";
    RowLinesEnd(rows);
    assert TableBlock(header, widths, rows) == prefix + RowLines(rows);
  }

  lemma {:induction false} RowLinesEnd(rows: seq<string>)
    ensures rows != [] ==> |RowLines(rows)| > 0 && RowLines(rows)[|RowLines(rows)| - 1] == '\n'
    decreases |rows|
  {
    if rows != [] {
      RowLinesEnd(rows[1..]);
    }
  }

  // ----- the lines of a block, as lines 26-27 read them -----

  /** The body lines of a block without their line breaks: `|row|` for each row. */
  function Framed(rows: seq<string>): (r: seq<string>)
    ensures |r| == |rows| && forall k :: 0 <= k < |rows| ==> r[k] == "|" + rows[k] + "|"
  {
    if rows == [] then [] else ["|" + rows[0] + "|"] + Framed(rows[1..])
  }

  /** Lines joined by line breaks, with none after the last. */
  function JoinLines(ls: seq<string>): string
    requires ls != []
    decreases |ls|
  {
    if |ls| == 1 then ls[0] else ls[0] + "\n" + JoinLines(ls[1..])
  }

  /** Splitting joined lines at the line breaks gives the lines back. */
  lemma {:induction false} SplitJoinLines(ls: seq<string>)
    requires ls != [] && forall k :: 0 <= k < |ls| ==> NoChar(ls[k], '\n')
    ensures Split(JoinLines(ls), "\n") == ls
    decreases |ls|
  {
    if |ls| == 1 {
      NoCharAbsent(ls[0], '\n');
      SplitAbsent(ls[0], "\n");
    } else {
      SplitJoinLines(ls[1..]);
      SplitLead(ls[0], '\n', JoinLines(ls[1..]));
      assert ls == [ls[0]] + ls[1..];
    }
  }

  /** Joined lines end with the last line. */
  lemma {:induction false} JoinLinesLast(ls: seq<string>)
    requires ls != []
    ensures var j := JoinLines(ls); var l := ls[|ls| - 1]; |l| <= |j| && j[|j| - |l|..] == l
    decreases |ls|
  {
    if |ls| > 1 {
      JoinLinesLast(ls[1..]);
      var j := JoinLines(ls[1..]);
      assert (ls[0] + "\n" + j)[|ls[0]| + 1..] == j;
    }
  }

  /** Joining a line in front of further lines puts a line break between them. */
  lemma JoinLinesCons(s: string, ls: seq<string>)
    requires ls != []
    ensures JoinLines([s] + ls) == s + "\n" + JoinLines(ls)
  {
    assert ([s] + ls)[1..] == ls;
  }

  /** The body lines, each followed by a line break, are the joined lines after the one before them. */
  lemma {:induction false} RowLinesJoin(s: string, rows: seq<string>)
    ensures JoinLines([s] + Framed(rows)) + "\n" == s + "\n" + RowLines(rows)
    decreases |rows|
  {
    if rows != [] {
      var f := "|" + rows[0] + "|";
      var tail := Framed(rows[1..]);
      assert Framed(rows) == [f] + tail;
      JoinLinesCons(s, [f] + tail);
      RowLinesJoin(f, rows[1..]);
      RowLinesCons(f, rows);
      Reassociate(s, JoinLines([f] + tail), f + "\n" + RowLines(rows[1..]));
    } else {
      assert [s] + Framed(rows) == [s];
    }
  }

  lemma RowLinesCons(f: string, rows: seq<string>)
    requires rows != [] && f == "|" + rows[0] + "|"
    ensures RowLines(rows) == f + "\n" + RowLines(rows[1..])
  {
  }

  /** `s`, a line break and `j` followed by a line break, when `j` and its break make `r`. */
  lemma Reassociate(s: string, j: string, r: string)
    requires j + "\n" == r
    ensures s + "\n" + j + "\n" == s + "\n" + r
  {
  }

  /** The separator cells hold no line break and end with a pipe. */
  lemma {:induction false} SepCellsPlain(widths: seq<nat>)
    ensures NoChar(SepCells(widths), '\n')
    ensures SepCells(widths) == [] || SepCells(widths)[|SepCells(widths)| - 1] == '|'
    decreases |widths|
  {
    if widths != [] {
      SepCellsPlain(widths[1..]);
      var d := Dashes(widths[0]);
      var s := d + "|" + SepCells(widths[1..]);
      forall i | 0 <= i < |s| ensures s[i] != '\n' {
        if i < |d| {
          assert s[i] == d[i];
        } else if i > |d| {
          assert s[i] == SepCells(widths[1..])[i - |d| - 1];
        }
      }
    }
  }

  /** A block is its lines, each followed by a line break. */
  lemma BlockJoined(block: string, header: string, widths: seq<nat>, rows: seq<string>)
    requires block == TableBlock(header, widths, rows)
    ensures block == JoinLines(["|" + header + "|", "|" + SepCells(widths)] + Framed(rows)) + "\n"
  {
    var h := "|" + header + "|";
    var s := "|" + SepCells(widths);
    var ls := [h, s] + Framed(rows);
    RowLinesJoin(s, rows);
    JoinLinesCons(h, [s] + Framed(rows));
    assert ls == [h] + ([s] + Framed(rows));
    BlockRegroup(header, SepCells(widths), RowLines(rows));
    Reassociate(h, JoinLines([s] + Framed(rows)), s + "\n" + RowLines(rows));
  }

  /** The block text regrouped as its header line, a line break and the rest. */
  lemma BlockRegroup(header: string, sep: string, body: string)
    ensures "|" + header + "|\n|" + sep + "\n" + body == ("|" + header + "|") + "\n" + (("|" + sep) + "\n" + body)
  {
  }

  /** Every line of a block opens and closes with a pipe and holds no line break. */
  lemma BlockLinesPlain(header: string, widths: seq<nat>, rows: seq<string>, ls: seq<string>)
    requires WellFormed(header, widths, rows)
    requires ls == ["|" + header + "|", "|" + SepCells(widths)] + Framed(rows)
    ensures forall k :: 0 <= k < |ls| ==> ls[k] != [] && ls[k][0] == '|' && ls[k][|ls[k]| - 1] == '|'
    ensures forall k :: 0 <= k < |ls| ==> NoChar(ls[k], '\n')
  {
    SepCellsPlain(widths);
    forall k | 0 <= k < |ls| ensures NoChar(ls[k], '\n') {
      var l := ls[k];
      forall i | 0 <= i < |l| ensures l[i] != '\n' {
        if k == 0 {
          if 0 < i < |l| - 1 { assert l[i] == header[i - 1]; }
        } else if k == 1 {
          if 0 < i { assert l[i] == SepCells(widths)[i - 1]; }
        } else {
          var r := rows[k - 2];
          assert l == "|" + r + "|";
          if 0 < i < |l| - 1 { assert l[i] == r[i - 1]; }
        }
      }
    }
  }

  /** Lines 26-27 read a block as its header line, its separator line and its row lines, in order. */
  lemma BlockLinesOfBlock(header: string, widths: seq<nat>, rows: seq<string>)
    requires WellFormed(header, widths, rows)
    ensures BlockLines(TableBlock(header, widths, rows)) == ["|" + header + "|", "|" + SepCells(widths)] + Framed(rows)
  {
    var block := TableBlock(header, widths, rows);
    var ls := ["|" + header + "|", "|" + SepCells(widths)] + Framed(rows);
    BlockJoined(block, header, widths, rows);
    BlockLinesPlain(header, widths, rows, ls);
    var j := JoinLines(ls);
    JoinLinesLast(ls);
    var l := ls[|ls| - 1];
    assert j[|j| - 1] == l[|l| - 1];
    assert j[0] == '|' by {
      if |ls| > 1 { assert j == ls[0] + "\n" + JoinLines(ls[1..]); }
    }
    TrimLineBreak(j);
    SplitJoinLines(ls);
  }

  /** The parsed table of a block: the header line's cells, and the cells of each row line. */
  lemma BlockTable(header: string, widths: seq<nat>, rows: seq<string>)
    requires WellFormed(header, widths, rows)
    ensures ParseLines(BlockLines(TableBlock(header, widths, rows))) ==
      Table(Cells("|" + header + "|"), CellsOfLines(Framed(rows)))
  {
    var lines := BlockLines(TableBlock(header, widths, rows));
    BlockLinesOfBlock(header, widths, rows);
    assert lines[2..] == Framed(rows);
  }

  /** `s` sits in `t` from `p`. */
  predicate At(t: string, p: nat, s: string) {
    p + |s| <= |t| && forall k {:trigger s[k]} :: 0 <= k < |s| ==> t[p + k] == s[k]
  }

  /** `t` ends with `s`, which starts at `p`. */
  predicate Ends(t: string, p: nat, s: string) {
    p + |s| == |t| && At(t, p, s)
  }

  lemma AtAppend(t: string, p: nat, a: string, b: string)
    requires At(t, p, a + b)
    ensures At(t, p, a) && At(t, p + |a|, b)
  {
    forall k | 0 <= k < |a| ensures t[p + k] == a[k] {
      assert (a + b)[k] == a[k];
    }
    forall k | 0 <= k < |b| ensures t[p + |a| + k] == b[k] {
      assert (a + b)[|a| + k] == b[k];
    }
  }

  /** Separator groups of the given widths from `p`, the last one ending at `g`. */
  predicate SepsFrom(t: string, p: nat, widths: seq<nat>, g: nat)
    decreases |widths|
  {
    p <= |t| &&
    if widths == [] then p == g
    else
      var e := p + widths[0];
      0 < widths[0] && e < |t| && (forall k :: p <= k < e ==> t[k] == '-') && t[e] == '|' &&
      SepsFrom(t, e + 1, widths[1..], g)
  }

  /** Rows from `x`, each `|row|` and a line break, then `rest` to the end. */
  predicate RowsFrom(t: string, x: nat, rows: seq<string>, rest: string)
    decreases |rows|
  {
    x <= |t| &&
    if rows == [] then Ends(t, x, rest)
    else
      var c := x + 1 + |rows[0]|;
      c + 2 <= |t| && t[x] == '|' && At(t, x + 1, rows[0]) && t[c] == '|' && t[c + 1] == '\n' &&
      RowsFrom(t, c + 2, rows[1..], rest)
  }

  /** The header and separator stages of `TableMatch` on a block followed by `rest` end at `w` and `x`, and the body stage at the end of the block. */
  lemma BlockStages(block: string, header: string, widths: seq<nat>, rows: seq<string>, rest: string) returns (w: nat, x: nat)
    requires block == TableBlock(header, widths, rows)
    requires WellFormed(header, widths, rows) && EndsBlock(rest)
    ensures HeaderEnd(block + rest) == Some(w) && SepEnd(block + rest, w) == Some(x) && BodyEnd(block + rest, x) == |block|
  {
    var q, g := BlockLayout(block + rest, block, header, widths, rows, rest);
    w, x := StagesFrom(block + rest, header, widths, rows, rest, q, g);
  }

  /** The three stages, from where the pieces of the block sit. */
  lemma StagesFrom(t: string, header: string, widths: seq<nat>, rows: seq<string>, rest: string, q: nat, g: nat) returns (w: nat, x: nat)
    requires WellFormed(header, widths, rows) && EndsBlock(rest)
    requires q == 1 + |header| && g == q + 3 + |SepCells(widths)| && g < |t|
    requires t[0] == '|' && t[q] == '|' && t[q + 1] == '\n' && t[q + 2] == '|' && t[g] == '\n'
    requires At(t, 1, header) && At(t, q + 3, SepCells(widths)) && At(t, g + 1, RowLines(rows))
    requires Ends(t, g + 1 + |RowLines(rows)|, rest)
    ensures HeaderEnd(t) == Some(w) && SepEnd(t, w) == Some(x) && BodyEnd(t, x) == g + 1 + |RowLines(rows)|
  {
    w := q + 2;
    x := g + 1;
    HeaderFromAt(t, header, q, w);
    BodyFromAt(t, x, rows, rest);
    SepFromAt(t, w, widths, g, x);
  }

  /** Where the pieces of a block sit in the text that starts with it. */
  lemma BlockLayout(t: string, block: string, header: string, widths: seq<nat>, rows: seq<string>, rest: string) returns (q: nat, g: nat)
    requires block == TableBlock(header, widths, rows) && t == block + rest
    ensures q == 1 + |header| && g == q + 3 + |SepCells(widths)| && g < |t|
    ensures t[0] == '|' && t[q] == '|' && t[q + 1] == '\n' && t[q + 2] == '|' && t[g] == '\n'
    ensures At(t, 1, header) && At(t, q + 3, SepCells(widths)) && At(t, g + 1, RowLines(rows))
    ensures Ends(t, g + 1 + |RowLines(rows)|, rest) && |block| == g + 1 + |RowLines(rows)|
  {
    q := 1 + |header|;
    g := q + 3 + |SepCells(widths)|;
    PrefixAt(block, rest);
    BlockParts(t, header, SepCells(widths), RowLines(rows), q, g);
  }

  /** The header stage reads a header without line breaks up to the separator's pipe. */
  lemma HeaderFromAt(t: string, header: string, q: nat, w: nat)
    requires At(t, 1, header) && header != [] && NoLineTerm(header) && q == 1 + |header| && w == q + 2 && w < |t|
    requires t[0] == '|' && t[q] == '|' && t[q + 1] == '\n' && t[w] == '|'
    ensures HeaderEnd(t) == Some(w)
  {
    forall k | 1 <= k < q ensures !IsLineTerm(t[k]) {
      assert t[1 + (k - 1)] == header[k - 1];
    }
    HeaderEndIs(t, q, w);
  }

  /** The separator stage reads the cells up to the line break at `g`. */
  lemma SepFromAt(t: string, w: nat, widths: seq<nat>, g: nat, x: nat)
    requires widths != [] && forall k :: 0 <= k < |widths| ==> widths[k] > 0
    requires At(t, w + 1, SepCells(widths)) && g == w + 1 + |SepCells(widths)| && g < |t| && t[g] == '\n'
    requires x == g + 1 && (x == |t| || !IsSpace(t[x]))
    ensures SepEnd(t, w) == Some(x)
  {
    SepCellsLong(widths);
    SepGroupsOfCells(t, w + 1, widths, g);
    SepEndIs(t, w, g, x);
  }

  /** The greedy groups from `p` read exactly the separator cells there and stop at the line break `g`. */
  lemma SepGroupsOfCells(t: string, p: nat, widths: seq<nat>, g: nat)
    requires forall k :: 0 <= k < |widths| ==> widths[k] > 0
    requires At(t, p, SepCells(widths)) && g == p + |SepCells(widths)| && g < |t| && t[g] == '\n'
    ensures SepGroups(t, p) == g
  {
    SepCellsAt(t, p, widths);
    SepGroupsFrom(t, p, widths, g);
  }

  lemma SepCellsLong(widths: seq<nat>)
    requires widths != [] && widths[0] > 0
    ensures |SepCells(widths)| >= 2
  {
    assert |SepCells(widths)| >= |Dashes(widths[0])| + 1;
  }

  /** The body stage reads the rows and stops at `rest`. */
  lemma BodyFromAt(t: string, x: nat, rows: seq<string>, rest: string)
    requires At(t, x, RowLines(rows)) && Ends(t, x + |RowLines(rows)|, rest)
    requires (forall k :: 0 <= k < |rows| ==> NoLineTerm(rows[k])) && EndsBlock(rest)
    ensures |rest| <= |t| && BodyEnd(t, x) == |t| - |rest|
    ensures x == |t| || !IsSpace(t[x])
  {
    RowLinesAt(t, x, rows, rest);
    RowsNext(t, x, rows, rest);
    BodyEndRows(t, x, rows, rest);
  }

  /** The five pieces of a block, each where it sits. */
  lemma BlockParts(t: string, header: string, sep: string, body: string, q: nat, g: nat)
    requires At(t, 0, "|" + header + "|\n|" + sep + "\n" + body)
    requires q == 1 + |header| && g == q + 3 + |sep|
    ensures g < |t| && t[0] == '|' && t[q] == '|' && t[q + 1] == '\n' && t[q + 2] == '|' && t[g] == '\n'
    ensures At(t, 1, header) && At(t, q + 3, sep) && At(t, g + 1, body)
  {
    var a := "|" + header;
    var b := a + "|\n|";
    var c := b + sep;
    var d := c + "\n";
    AtAppend(t, 0, d, body);
    AtAppend(t, 0, c, "\n");
    AtAppend(t, 0, b, sep);
    AtAppend(t, 0, a, "|\n|");
    AtAppend(t, 0, "|", header);
    assert t[0 + 0] == "|"[0];
    assert t[q + 0] == "|\n|"[0] && t[q + 1] == "|\n|"[1] && t[q + 2] == "|\n|"[2];
    assert t[g + 0] == "\n"[0];
  }

  lemma {:induction false} SepCellsAt(t: string, p: nat, widths: seq<nat>)
    requires At(t, p, SepCells(widths)) && forall k :: 0 <= k < |widths| ==> widths[k] > 0
    ensures SepsFrom(t, p, widths, p + |SepCells(widths)|)
    decreases |widths|
  {
    if widths != [] {
      var d := Dashes(widths[0]);
      AtAppend(t, p, d + "|", SepCells(widths[1..]));
      AtAppend(t, p, d, "|");
      forall k | p <= k < p + widths[0] ensures t[k] == '-' {
        assert t[p + (k - p)] == d[k - p];
      }
      assert t[p + |d|] == "|"[0];
      SepCellsAt(t, p + |d| + 1, widths[1..]);
    }
  }

  lemma {:induction false} RowLinesAt(t: string, x: nat, rows: seq<string>, rest: string)
    requires At(t, x, RowLines(rows)) && Ends(t, x + |RowLines(rows)|, rest)
    ensures RowsFrom(t, x, rows, rest)
    decreases |rows|
  {
    if rows != [] {
      var r := rows[0];
      AtAppend(t, x, "|" + r + "|\n", RowLines(rows[1..]));
      AtAppend(t, x, "|" + r, "|\n");
      AtAppend(t, x, "|", r);
      var c := x + 1 + |r|;
      assert t[x] == "|"[0] && t[c] == "|\n"[0] && t[c + 1] == "|\n"[1];
      RowLinesAt(t, c + 2, rows[1..], rest);
    }
  }

  /** The three stages of `TableMatch`, each known. */
  lemma TableMatchIs(t: string, w: nat, x: nat, m: nat)
    requires HeaderEnd(t) == Some(w) && SepEnd(t, w) == Some(x) && BodyEnd(t, x) == m
    ensures TableMatch(t) == Some(m)
  {
  }

  /** A header whose last pipe `q` is followed by one line break and the separator's pipe at `w`. */
  lemma HeaderEndIs(t: string, q: nat, w: nat)
    requires 2 <= q && w == q + 2 && w < |t| && t[0] == '|' && t[q] == '|' && t[q + 1] == '\n' && t[w] == '|'
    requires forall k :: 1 <= k < q ==> !IsLineTerm(t[k])
    ensures HeaderEnd(t) == Some(w)
  {
    LineEndTo(t, 1, q + 1);
    LastOfIs(t, 1, q + 1, '|', q);
    SkipSpaceTo(t, q + 1, w);
  }

  /** After groups ending at the line break `g`, no white space at `x`. */
  lemma SepEndIs(t: string, w: nat, g: nat, x: nat)
    requires w + 1 < g < |t| && x == g + 1 && SepGroups(t, w + 1) == g && t[g] == '\n'
    requires x == |t| || !IsSpace(t[x])
    ensures SepEnd(t, w) == Some(x)
  {
    SepCloseIs(t, w, g);
  }

  lemma SepCloseIs(t: string, w: nat, g: nat)
    requires w + 1 < g < |t| && t[g] == '\n'
    requires g + 1 == |t| || !IsSpace(t[g + 1])
    ensures SepClose(t, w, g) == Some(g + 1)
  {
    SkipSpaceTo(t, g, g + 1);
    LastOfIs(t, g, g + 1, '\n', g);
  }

  /** The greedy groups read exactly the separator cells and stop at the line break. */
  lemma {:induction false} SepGroupsFrom(t: string, p: nat, widths: seq<nat>, g: nat)
    requires SepsFrom(t, p, widths, g) && g < |t| && t[g] == '\n'
    ensures SepGroups(t, p) == g
    decreases |widths|
  {
    if widths == [] {
      SepGroupsNone(t, g);
    } else {
      var n := SepsStep(t, p, widths, g);
      SepGroupsStep(t, p, n);
      SepGroupsFrom(t, n, widths[1..], g);
    }
  }

  /** The first of the expected groups, read as one group. */
  lemma SepsStep(t: string, p: nat, widths: seq<nat>, g: nat) returns (n: nat)
    requires SepsFrom(t, p, widths, g) && widths != []
    ensures p < n && SepGroup(t, p) == Some(n) && SepsFrom(t, n, widths[1..], g)
  {
    var e := p + widths[0];
    SepGroupAt(t, p, e);
    n := e + 1;
  }

  lemma SepGroupsStep(t: string, p: nat, n: nat)
    requires p <= |t| && SepGroup(t, p) == Some(n)
    ensures SepGroups(t, p) == SepGroups(t, n)
  {
  }

  lemma SepGroupsNone(t: string, g: nat)
    requires g < |t| && t[g] == '\n'
    ensures SepGroups(t, g) == g
  {
    SepGroupNone(t, g);
  }

  /** A run of dashes closed by a pipe is one group. */
  lemma SepGroupAt(t: string, p: nat, e: nat)
    requires p < e < |t| && (forall k :: p <= k < e ==> t[k] == '-') && t[e] == '|'
    ensures SepGroup(t, p) == Some(e + 1)
  {
    assert SkipChar(t, p, ' ') == p;
    assert DashEnd(t, p) == e;
    assert SkipChar(t, e, ' ') == e;
  }

  /** A line break is no group. */
  lemma SepGroupNone(t: string, g: nat)
    requires g < |t| && t[g] == '\n'
    ensures SepGroup(t, g) == None
  {
    assert SkipChar(t, g, ' ') == g && DashEnd(t, g) == g;
  }

  /** `LastOf` finds `c` at `q` when nothing after it up to `e` is `c`. */
  lemma LastOfIs(t: string, a: nat, e: nat, c: char, q: nat)
    requires a <= q < e <= |t| && t[q] == c && forall k :: q < k < e ==> t[k] != c
    ensures LastOf(t, a, e, c) == Some(q)
    decreases e
  {
    if q < e - 1 {
      LastOfIs(t, a, e - 1, c, q);
    }
  }

  /** After the rows, white space cannot follow. */
  lemma RowsNext(t: string, y: nat, rows: seq<string>, rest: string)
    requires RowsFrom(t, y, rows, rest) && EndsBlock(rest)
    ensures y == |t| || !IsSpace(t[y])
  {
    if rows == [] {
      assert y < |t| ==> t[y + 0] == rest[0];
    }
  }

  /** The body rule reads each row from `x` and stops right after the last one. */
  lemma {:induction false} BodyEndRows(t: string, x: nat, rows: seq<string>, rest: string)
    requires RowsFrom(t, x, rows, rest)
    requires forall k :: 0 <= k < |rows| ==> NoLineTerm(rows[k])
    requires EndsBlock(rest)
    ensures BodyEnd(t, x) == |t| - |rest|
    decreases |rows|
  {
    if rows == [] {
      assert x < |t| ==> t[x + 0] == rest[0];
    } else {
      var r := rows[0];
      var c := x + 1 + |r|;
      forall k | x < k < c ensures !IsLineTerm(t[k]) {
        assert t[x + 1 + (k - x - 1)] == r[k - x - 1];
      }
      RowsNext(t, c + 2, rows[1..], rest);
      BodyEndStep(t, x, c);
      BodyEndRows(t, c + 2, rows[1..], rest);
    }
  }

  /** One row: from its opening pipe at `x` to its closing pipe at `c`, then its line break. */
  lemma BodyEndStep(t: string, x: nat, c: nat)
    requires x < c && c + 1 < |t| && t[x] == '|' && t[c] == '|' && t[c + 1] == '\n'
    requires forall k :: x < k < c ==> !IsLineTerm(t[k])
    requires c + 2 == |t| || !IsSpace(t[c + 2])
    ensures BodyEnd(t, x) == BodyEnd(t, c + 2)
  {
    LineEndTo(t, x + 1, c + 1);
    LastOfIs(t, x + 1, c + 1, '|', c);
    SkipSpaceTo(t, c + 1, c + 2);
  }

  /** Text without a pipe contains no table and passes unchanged. */
  lemma {:induction false} TablePassIdentity(s: string, atLineStart: bool)
    requires NoChar(s, '|')
    ensures TablePass(s, atLineStart) == s
    decreases |s|
  {
    if s != [] {
      assert s[0] != '|';
      assert TableMatch(s).None?;
      assert NoChar(s[1..], '|') by {
        forall i | 0 <= i < |s[1..]| ensures s[1..][i] != '|' {
          assert s[1..][i] == s[i + 1];
        }
      }
      TablePassIdentity(s[1..], IsLineTerm(s[0]));
      assert [s[0]] + s[1..] == s;
    }
  }
}
