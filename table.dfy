/** The table reflow of src/format.js: the replacement callback the
    preprocessor runs on each detected pipe table. It gets the header lines
    and the body lines (the separator row is matched but not passed on),
    splits them into trimmed cells, pads every cell to its column's widest
    cell, and returns the rows joined by " | " with a dash rule under the
    header, framed by newlines as plain text. */
module TableReflow {
  import opened Text

  // ---------------------------------------------------------------------
  // Rows and cells

  /** Drops one leading and then one trailing pipe. */
  function StripPipes(s: string): string {
    var a := if |s| > 0 && s[0] == '|' then s[1..] else s;
    if |a| > 0 && a[|a| - 1] == '|' then a[..|a| - 1] else a
  }

  /** One table line as trimmed cells. */
  function Cells(line: string): (r: seq<string>)
    ensures |r| >= 1
  {
    var parts := SplitOn(StripPipes(Trim(line)), '|');
    seq(|parts|, k requires 0 <= k < |parts| => Trim(parts[k]))
  }

  /** The header block and the body block, end-trimmed, as rows of cells. */
  function Rows(headerBlock: string, bodyBlock: string): (rows: seq<seq<string>>)
    ensures |rows| >= 1
  {
    var lines := SplitOn(TrimEnd(headerBlock + bodyBlock), '\n');
    seq(|lines|, k requires 0 <= k < |lines| => Cells(lines[k]))
  }

  // ---------------------------------------------------------------------
  // Column widths

  /** The number of columns: the length of the longest row. */
  function ColumnCount(rows: seq<seq<string>>): nat {
    if rows == [] then 0 else Max(ColumnCount(rows[..|rows| - 1]), |rows[|rows| - 1]|)
  }

  /** The widest cell of column `i`, over the rows that reach it. */
  function ColumnMax(rows: seq<seq<string>>, i: nat): nat {
    if rows == [] then 0
    else
      var last := rows[|rows| - 1];
      Max(ColumnMax(rows[..|rows| - 1], i), if i < |last| then |last[i]| else 0)
  }

  /** The width of every column. */
  function Widths(rows: seq<seq<string>>): seq<nat> {
    seq(ColumnCount(rows), i requires 0 <= i => ColumnMax(rows, i))
  }

  /** There are as many widths as the longest row has cells; each width is
      the length of some cell of its column and no cell of the column is
      longer. */
  lemma {:induction false} WidthsAreMaxima(rows: seq<seq<string>>)
    ensures var w := Widths(rows);
      (forall j :: 0 <= j < |rows| ==> |rows[j]| <= |w|)
      && (|w| > 0 ==> exists j :: 0 <= j < |rows| && |rows[j]| == |w|)
      && (forall j, i :: 0 <= j < |rows| && 0 <= i < |rows[j]| ==> |rows[j][i]| <= w[i])
      && (forall i :: 0 <= i < |w| ==> exists j :: 0 <= j < |rows| && i < |rows[j]| && |rows[j][i]| == w[i])
  {
    if rows != [] {
      var init := rows[..|rows| - 1];
      var last := rows[|rows| - 1];
      WidthsAreMaxima(init);
      var w0 := Widths(init);
      var w := Widths(rows);
      forall j | 0 <= j < |rows|
        ensures |rows[j]| <= |w|
      {
        if j < |init| { assert rows[j] == init[j]; }
      }
      if |w| > 0 {
        if |last| == |w| {
          assert |rows[|rows| - 1]| == |w|;
        } else {
          var j :| 0 <= j < |init| && |init[j]| == |w0|;
          assert rows[j] == init[j];
        }
      }
      forall j, i | 0 <= j < |rows| && 0 <= i < |rows[j]|
        ensures |rows[j][i]| <= w[i]
      {
        if j < |init| {
          assert rows[j] == init[j];
          assert |init[j][i]| <= w0[i];
        }
      }
      forall i | 0 <= i < |w|
        ensures exists j :: 0 <= j < |rows| && i < |rows[j]| && |rows[j][i]| == w[i]
      {
        if i < |last| && |last[i]| == w[i] {
          assert i < |rows[|rows| - 1]| && |rows[|rows| - 1][i]| == w[i];
        } else {
          if i >= ColumnCount(init) {
            ColumnMaxBeyond(init, i);
          }
          assert i < |w0| && w[i] == w0[i];
          var j :| 0 <= j < |init| && i < |init[j]| && |init[j][i]| == w0[i];
          assert rows[j] == init[j];
        }
      }
    }
  }

  /** A column no row reaches has width 0. */
  lemma {:induction false} ColumnMaxBeyond(rows: seq<seq<string>>, i: nat)
    requires i >= ColumnCount(rows)
    ensures ColumnMax(rows, i) == 0
  {
    if rows != [] {
      ColumnMaxBeyond(rows[..|rows| - 1], i);
    }
  }

  /** The width loop: every row, every cell, `widths[i] = max(widths[i] || 0, len)`. */
  method ColumnWidths(rows: seq<seq<string>>) returns (widths: seq<nat>)
    ensures widths == Widths(rows)
  {
    widths := [];
    for k := 0 to |rows|
      invariant widths == Widths(rows[..k])
    {
      var r := rows[k];
      var done := rows[..k];
      assert rows[..k + 1][..k] == done;
      for i := 0 to |r|
        invariant |widths| == Max(ColumnCount(done), i)
        invariant forall c :: 0 <= c < |widths| ==>
          widths[c] == if c < i then Max(ColumnMax(done, c), |r[c]|) else ColumnMax(done, c)
      {
        if i < |widths| {
          widths := widths[i := Max(widths[i], |r[i]|)];
        } else {
          ColumnMaxBeyond(done, i);
          widths := widths + [|r[i]|];
        }
      }
      forall c | |r| <= c < |widths| ensures widths[c] == ColumnMax(rows[..k + 1], c) {}
    }
    assert rows[..|rows|] == rows;
  }

  // ---------------------------------------------------------------------
  // Layout

  /** `w` for a column the widths cover; 0 otherwise, where the source's
      padding degenerates to no padding. */
  function WidthAt(widths: seq<nat>, i: nat): nat {
    if i < |widths| then widths[i] else 0
  }

  /** pad: right-pads with spaces up to `w`, never cutting. */
  function Pad(s: string, w: nat): string {
    s + Repeat(' ', Max(0, w - |s|))
  }

  /** toLine: the padded cells of one row joined by " | ". */
  function ToLine(row: seq<string>, widths: seq<nat>): string {
    Join(seq(|row|, i requires 0 <= i < |row| => Pad(row[i], WidthAt(widths, i))), " | ")
  }

  /** The rule under the header: dashes per column joined by "-+-". */
  function Rule(widths: seq<nat>): string {
    Join(seq(|widths|, i requires 0 <= i < |widths| => Repeat('-', widths[i])), "-+-")
  }

  /** Header line, rule, body lines. */
  function TableLines(rows: seq<seq<string>>, widths: seq<nat>): (lines: seq<string>)
    requires |rows| >= 1
    ensures |lines| == |rows| + 1
  {
    if |rows| == 1 then [ToLine(rows[0], widths), Rule(widths)]
    else TableLines(rows[..|rows| - 1], widths) + [ToLine(rows[|rows| - 1], widths)]
  }

  /** The header comes first, the rule second, then each body row in order. */
  lemma {:induction false} TableLinesOrder(rows: seq<seq<string>>, widths: seq<nat>)
    requires |rows| >= 1
    ensures var lines := TableLines(rows, widths);
      lines[0] == ToLine(rows[0], widths) && lines[1] == Rule(widths)
      && forall k :: 1 <= k < |rows| ==> lines[k + 1] == ToLine(rows[k], widths)
  {
    if |rows| > 1 {
      var init := rows[..|rows| - 1];
      TableLinesOrder(init, widths);
      assert forall k :: 1 <= k < |init| ==> rows[k] == init[k];
    }
  }

  lemma TableLinesSnoc(rows: seq<seq<string>>, widths: seq<nat>, i: nat)
    requires 1 <= i < |rows|
    ensures TableLines(rows[..i + 1], widths) == TableLines(rows[..i], widths) + [ToLine(rows[i], widths)]
  {
    assert rows[..i + 1][..i] == rows[..i];
  }

  /** The replacement text: the lines framed by a leading and a trailing newline. */
  function Framed(lines: seq<string>): string {
    "\n" + Join(lines, "\n") + "\n"
  }

  /** The output lines: the header row, the rule, then the body rows. */
  method BuildLines(rows: seq<seq<string>>, widths: seq<nat>) returns (outLines: seq<string>)
    requires |rows| >= 1
    ensures outLines == TableLines(rows, widths)
  {
    outLines := [ToLine(rows[0], widths)];
    outLines := outLines + [Rule(widths)];
    assert rows[..1] == [rows[0]];
    for i := 1 to |rows|
      invariant outLines == TableLines(rows[..i], widths)
    {
      TableLinesSnoc(rows, widths, i);
      outLines := outLines + [ToLine(rows[i], widths)];
    }
    assert rows[..|rows|] == rows;
  }

  /** The table callback, from the header and body blocks to the replacement. */
  method ReflowTable(headerBlock: string, bodyBlock: string) returns (out: string)
    ensures var rows := Rows(headerBlock, bodyBlock);
      out == Framed(TableLines(rows, Widths(rows)))
  {
    var rows := Rows(headerBlock, bodyBlock);
    var widths := ColumnWidths(rows);
    var outLines := BuildLines(rows, widths);
    out := "\n" + Join(outLines, "\n") + "\n";
  }

  // ---------------------------------------------------------------------
  // What the layout guarantees

  /** A cell no wider than its column is padded to exactly the column width;
      a cell is never cut. */
  lemma PadExact(s: string, w: nat)
    ensures Pad(s, w)[..|s|] == s
    ensures forall k :: |s| <= k < |Pad(s, w)| ==> Pad(s, w)[k] == ' '
    ensures |s| <= w ==> |Pad(s, w)| == w
    ensures |s| >= w ==> Pad(s, w) == s
  {}

  /** A cell no wider than the column is padded to exactly its width. */
  lemma PadLength(s: string, w: nat)
    requires |s| <= w
    ensures |Pad(s, w)| == w
  {}

  /** Where column `i` starts in a line whose columns have widths `ws` and
      are separated by three characters. */
  function ColumnStart(ws: seq<nat>, i: nat): nat
    requires i <= |ws|
  {
    if i == 0 then 0 else ws[0] + 3 + ColumnStart(ws[1..], i - 1)
  }

  /** Cells of the given widths joined by a three-character separator: cell
      `i` sits at ColumnStart(ws, i), and the separator right after it. */
  lemma {:induction false} JoinAt(cells: seq<string>, sep: string, ws: seq<nat>, i: nat)
    requires |sep| == 3 && |cells| == |ws| && i < |cells|
    requires forall j :: 0 <= j < |cells| ==> |cells[j]| == ws[j]
    ensures ColumnStart(ws, i) + ws[i] <= |Join(cells, sep)|
    ensures i + 1 < |cells| ==> ColumnStart(ws, i) + ws[i] + 3 <= |Join(cells, sep)|
    ensures Join(cells, sep)[ColumnStart(ws, i)..ColumnStart(ws, i) + ws[i]] == cells[i]
    ensures i + 1 < |cells| ==>
      Join(cells, sep)[ColumnStart(ws, i) + ws[i]..ColumnStart(ws, i) + ws[i] + 3] == sep
    ensures i + 1 == |cells| ==> |Join(cells, sep)| == ColumnStart(ws, i) + ws[i]
  {
    var joined := Join(cells, sep);
    if |cells| > 1 {
      var rest := Join(cells[1..], sep);
      assert joined == cells[0] + sep + rest;
      if i == 0 {
        assert joined[..ws[0]] == cells[0];
        assert joined[ws[0]..ws[0] + 3] == sep;
      } else {
        JoinAt(cells[1..], sep, ws[1..], i - 1);
        var at := ColumnStart(ws[1..], i - 1);
        var head := cells[0] + sep;
        assert joined == head + rest && |head| == ws[0] + 3 && |joined| == |head| + |rest|;
        assert ColumnStart(ws, i) == |head| + at;
        assert ws[1..][i - 1] == ws[i];
        SliceAfter(head, rest, |head| + at, |head| + at + ws[i]);
        if i + 1 < |cells| {
          SliceAfter(head, rest, |head| + at + ws[i], |head| + at + ws[i] + 3);
        }
      }
    }
  }

  /** A slice lying past the first part of a concatenation is a slice of
      the second part. */
  lemma SliceAfter(a: string, b: string, lo: nat, hi: nat)
    requires |a| <= lo <= hi <= |a| + |b|
    ensures (a + b)[lo..hi] == b[lo - |a|..hi - |a|]
  {}

  /** In a row whose cells fit their widths, column `i` of the line is the
      cell padded to exactly its width, followed by " | " unless it is the
      row's last cell. A row may have fewer cells than there are columns. */
  lemma LineColumns(row: seq<string>, w: seq<nat>, i: nat)
    requires |row| <= |w| && i < |row|
    requires forall j :: 0 <= j < |row| ==> |row[j]| <= w[j]
    ensures var line := ToLine(row, w);
      var at := ColumnStart(w, i);
      && at + w[i] <= |line|
      && line[at..at + w[i]] == Pad(row[i], w[i])
      && line[at..at + |row[i]|] == row[i]
      && (i + 1 < |row| ==> at + w[i] + 3 <= |line| && line[at + w[i]..at + w[i] + 3] == " | ")
      && (i + 1 == |row| ==> |line| == at + w[i])
  {
    var ws := w[..|row|];
    assert ToLine(row, w) == ToLine(row, ws) by {
      ToLineWidths(row, w, ws);
    }
    FullRowColumns(row, ws, i);
    ColumnStartPrefix(w, |row|, i);
  }

  /** A line only reads the widths of the columns its row has. */
  lemma ToLineWidths(row: seq<string>, w: seq<nat>, ws: seq<nat>)
    requires |row| <= |w| && ws == w[..|row|]
    ensures ToLine(row, w) == ToLine(row, ws)
  {
    var a := seq(|row|, j requires 0 <= j < |row| => Pad(row[j], WidthAt(w, j)));
    var b := seq(|row|, j requires 0 <= j < |row| => Pad(row[j], WidthAt(ws, j)));
    assert a == b;
  }

  /** LineColumns for a row with a cell in every column. */
  lemma FullRowColumns(row: seq<string>, w: seq<nat>, i: nat)
    requires |row| == |w| && i < |row|
    requires forall j :: 0 <= j < |row| ==> |row[j]| <= w[j]
    ensures var line := ToLine(row, w);
      var at := ColumnStart(w, i);
      && at + w[i] <= |line|
      && line[at..at + w[i]] == Pad(row[i], w[i])
      && line[at..at + |row[i]|] == row[i]
      && (i + 1 < |w| ==> at + w[i] + 3 <= |line| && line[at + w[i]..at + w[i] + 3] == " | ")
      && (i + 1 == |w| ==> |line| == at + w[i])
  {
    var cells := seq(|row|, j requires 0 <= j < |row| => Pad(row[j], WidthAt(w, j)));
    assert ToLine(row, w) == Join(cells, " | ");
    forall j | 0 <= j < |cells|
      ensures |cells[j]| == w[j]
    {
      PadLength(row[j], w[j]);
    }
    assert cells[i] == Pad(row[i], w[i]);
    PaddedJoinAt(cells, w, i, row[i]);
  }

  /** The start of column `i` depends only on the widths before it. */
  lemma {:induction false} ColumnStartPrefix(ws: seq<nat>, n: nat, i: nat)
    requires i <= n <= |ws|
    ensures ColumnStart(ws[..n], i) == ColumnStart(ws, i)
  {
    if i > 0 {
      assert ws[..n][1..] == ws[1..][..n - 1];
      ColumnStartPrefix(ws[1..], n - 1, i - 1);
    }
  }

  /** LineColumns over the padded cells themselves, so that the body of
      ToLine stays out of the proof. */
  lemma PaddedJoinAt(cells: seq<string>, w: seq<nat>, i: nat, cell: string)
    requires |cells| == |w| && i < |cells|
    requires forall j :: 0 <= j < |cells| ==> |cells[j]| == w[j]
    requires |cell| <= w[i] && cells[i] == Pad(cell, w[i])
    ensures var line := Join(cells, " | ");
      var at := ColumnStart(w, i);
      && at + w[i] <= |line|
      && line[at..at + w[i]] == Pad(cell, w[i])
      && line[at..at + |cell|] == cell
      && (i + 1 < |w| ==> at + w[i] + 3 <= |line| && line[at + w[i]..at + w[i] + 3] == " | ")
      && (i + 1 == |w| ==> |line| == at + w[i])
  {
    JoinAt(cells, " | ", w, i);
    PaddedPrefix(Join(cells, " | "), ColumnStart(w, i), w[i], cell);
  }

  /** Where a padded cell sits in a line, the cell itself starts there. */
  lemma PaddedPrefix(line: string, at: nat, w: nat, cell: string)
    requires |cell| <= w && at + w <= |line|
    requires line[at..at + w] == Pad(cell, w)
    ensures line[at..at + |cell|] == cell
  {
    PadExact(cell, w);
    PrefixOfSlice(line, at, at + w, at + |cell|);
  }

  /** A prefix of a slice is the shorter slice. */
  lemma PrefixOfSlice(s: string, lo: nat, hi: nat, mid: nat)
    requires lo <= mid <= hi <= |s|
    ensures s[lo..mid] == s[lo..hi][..mid - lo]
  {}

  /** Column `i` of the rule is `w[i]` dashes, followed by "-+-" unless it
      is the last column. */
  lemma RuleColumns(w: seq<nat>, i: nat)
    requires i < |w|
    ensures var at := ColumnStart(w, i);
      && at + w[i] <= |Rule(w)|
      && Rule(w)[at..at + w[i]] == Repeat('-', w[i])
      && (i + 1 < |w| ==> at + w[i] + 3 <= |Rule(w)| && Rule(w)[at + w[i]..at + w[i] + 3] == "-+-")
      && (i + 1 == |w| ==> |Rule(w)| == at + w[i])
  {
    var dashes := seq(|w|, j requires 0 <= j < |w| => Repeat('-', w[j]));
    JoinAt(dashes, "-+-", w, i);
  }

  /** In every row of the table, short rows included, each cell lines up
      with the rule: the cell padded to the column width sits where the
      rule's dashes are, and the separators " | " and "-+-" follow at the
      same place. */
  lemma ColumnsAligned(rows: seq<seq<string>>, k: nat, i: nat)
    requires k < |rows| && i < |rows[k]|
    ensures |rows[k]| <= |Widths(rows)|
    ensures var w := Widths(rows);
      var line := ToLine(rows[k], w);
      var at := ColumnStart(w, i);
      && at + w[i] <= |line| && at + w[i] <= |Rule(w)|
      && line[at..at + w[i]] == Pad(rows[k][i], w[i])
      && line[at..at + |rows[k][i]|] == rows[k][i]
      && Rule(w)[at..at + w[i]] == Repeat('-', w[i])
      && (i + 1 < |rows[k]| ==> at + w[i] + 3 <= |line| && line[at + w[i]..at + w[i] + 3] == " | ")
      && (i + 1 < |w| ==> at + w[i] + 3 <= |Rule(w)| && Rule(w)[at + w[i]..at + w[i] + 3] == "-+-")
      && (i + 1 == |rows[k]| ==> |line| == at + w[i])
      && (i + 1 == |w| ==> |Rule(w)| == at + w[i])
  {
    var w := Widths(rows);
    var row := rows[k];
    assert |row| <= |w| && forall j :: 0 <= j < |row| ==> |row[j]| <= w[j] by {
      WidthsAreMaxima(rows);
    }
    LineColumns(row, w, i);
    RuleColumns(w, i);
  }

  /** A string without a line break. */
  predicate NoBreak(s: string) {
    '\n' !in s
  }

  /** No cell of the parsed rows holds a line break. */
  lemma CellsSingleLine(headerBlock: string, bodyBlock: string)
    ensures var rows := Rows(headerBlock, bodyBlock);
      forall j, i :: 0 <= j < |rows| && 0 <= i < |rows[j]| ==> NoBreak(rows[j][i])
  {
    var rows := Rows(headerBlock, bodyBlock);
    var lines := SplitOn(TrimEnd(headerBlock + bodyBlock), '\n');
    forall j, i | 0 <= j < |rows| && 0 <= i < |rows[j]|
      ensures NoBreak(rows[j][i])
    {
      var line := lines[j];
      assert rows[j] == Cells(line);
      TrimWithout(line, '\n');
      var t := Trim(line);
      var stripped := StripPipes(t);
      assert '\n' !in stripped by {
        var a := if |t| > 0 && t[0] == '|' then t[1..] else t;
        assert '\n' !in a;
      }
      SplitOnPieces(stripped, '|', '\n');
      TrimWithout(SplitOn(stripped, '|')[i], '\n');
    }
  }

  /** A row whose cells hold no line break makes a line without one. */
  lemma LineSingle(row: seq<string>, w: seq<nat>)
    requires forall i :: 0 <= i < |row| ==> NoBreak(row[i])
    ensures '\n' !in ToLine(row, w)
  {
    var cells := seq(|row|, i requires 0 <= i < |row| => Pad(row[i], WidthAt(w, i)));
    forall i | 0 <= i < |cells|
      ensures '\n' !in cells[i]
    {
      var pad := Repeat(' ', Max(0, WidthAt(w, i) - |row[i]|));
      assert cells[i] == row[i] + pad;
    }
    JoinWithout(cells, " | ", '\n');
  }

  /** The rule holds no line break. */
  lemma RuleSingle(w: seq<nat>)
    ensures '\n' !in Rule(w)
  {
    var dashes := seq(|w|, i requires 0 <= i < |w| => Repeat('-', w[i]));
    JoinWithout(dashes, "-+-", '\n');
  }

  /** A table whose cells hold no line break has lines without one. */
  lemma TableLinesSingle(rows: seq<seq<string>>, w: seq<nat>)
    requires |rows| >= 1
    requires forall j, i :: 0 <= j < |rows| && 0 <= i < |rows[j]| ==> NoBreak(rows[j][i])
    ensures var lines := TableLines(rows, w);
      forall k :: 0 <= k < |lines| ==> NoBreak(lines[k])
  {
    var lines := TableLines(rows, w);
    TableLinesOrder(rows, w);
    forall k | 0 <= k < |lines|
      ensures NoBreak(lines[k])
    {
      if k == 1 {
        RuleSingle(w);
      } else {
        var j := if k == 0 then 0 else k - 1;
        assert lines[k] == ToLine(rows[j], w);
        LineSingle(rows[j], w);
      }
    }
  }

  /** Lines without line breaks, framed, split back into an empty line,
      the lines, and an empty line. */
  lemma FramedSplit(lines: seq<string>)
    requires |lines| >= 1 && forall k :: 0 <= k < |lines| ==> NoBreak(lines[k])
    ensures SplitOn(Framed(lines), '\n') == [""] + lines + [""]
  {
    var joined := Join(lines, "\n");
    SplitOnJoin(lines, '\n', "");
    assert joined + "\n" + "" == joined + "\n";
    SplitOnPrefix("", joined + "\n", '\n');
    assert Framed(lines) == "" + ['\n'] + (joined + "\n");
  }

  /** The replacement, split at its line breaks, is an empty line, the header
      line, the rule, the body lines in order, and an empty line: the table is
      framed by line breaks and none of its lines breaks. */
  lemma FramedLines(headerBlock: string, bodyBlock: string)
    ensures var rows := Rows(headerBlock, bodyBlock);
      var lines := TableLines(rows, Widths(rows));
      SplitOn(Framed(lines), '\n') == [""] + lines + [""]
  {
    CellsSingleLine(headerBlock, bodyBlock);
    SingleLineTable(Rows(headerBlock, bodyBlock));
  }

  lemma SingleLineTable(rows: seq<seq<string>>)
    requires |rows| >= 1
    requires forall j, i :: 0 <= j < |rows| && 0 <= i < |rows[j]| ==> NoBreak(rows[j][i])
    ensures SplitOn(Framed(TableLines(rows, Widths(rows))), '\n') == [""] + TableLines(rows, Widths(rows)) + [""]
  {
    var w := Widths(rows);
    TableLinesSingle(rows, w);
    assert NoBreak(TableLines(rows, w)[0]);
    assert |TableLines(rows, w)| >= 1;
    FramedSplit(TableLines(rows, w));
  }

  /** A cell character: visible, and neither a pipe nor a line break. */
  predicate CellChar(c: char) {
    !IsSpace(c) && c != '|'
  }

  /** A two-by-two table of one-character cells, "| a | b |", separator,
      "| c | d |" (for instance "| A | B |" over "| 1 | 2 |"), becomes the
      framed lines "a | b", "--+--", "c | d". */
  lemma TwoByTwoScenario(a: char, b: char, c: char, d: char, header: string, body: string)
    requires CellChar(a) && CellChar(b) && CellChar(c) && CellChar(d)
    requires header == "| " + [a] + " | " + [b] + " |\n" && body == "| " + [c] + " | " + [d] + " |"
    ensures var rows := Rows(header, body);
      Framed(TableLines(rows, Widths(rows)))
        == "\n" + [a] + " | " + [b] + "\n--+--\n" + [c] + " | " + [d] + "\n"
  {
    TwoByTwoRows(a, b, c, d, header, body);
    FramedPairs(Rows(header, body), a, b, c, d);
  }

  lemma FramedPairs(rows: seq<seq<string>>, a: char, b: char, c: char, d: char)
    requires rows == [[[a], [b]], [[c], [d]]]
    ensures Framed(TableLines(rows, Widths(rows)))
      == "\n" + [a] + " | " + [b] + "\n--+--\n" + [c] + " | " + [d] + "\n"
  {
    TwoByTwoWidths(rows);
    TwoByTwoLines(rows, [1, 1]);
  }

  lemma TwoByTwoRows(a: char, b: char, c: char, d: char, header: string, body: string)
    requires CellChar(a) && CellChar(b) && CellChar(c) && CellChar(d)
    requires header == "| " + [a] + " | " + [b] + " |\n" && body == "| " + [c] + " | " + [d] + " |"
    ensures Rows(header, body) == [[[a], [b]], [[c], [d]]]
  {
    var top := "| " + [a] + " | " + [b] + " |";
    var bottom := "| " + [c] + " | " + [d] + " |";
    assert SplitOn(TrimEnd(header + body), '\n') == [top, bottom] by {
      var block := header + body;
      assert block == top + "\n" + bottom;
      assert TrimEnd(block) == block;
      assert '\n' !in top && '\n' !in bottom by {
        assert forall k :: 0 <= k < |top| ==> top[k] != '\n';
        assert forall k :: 0 <= k < |bottom| ==> bottom[k] != '\n';
      }
      SplitLines(top, bottom, block);
    }
    CellsOfPair(top, a, b);
    CellsOfPair(bottom, c, d);
  }

  lemma TwoByTwoWidths(rows: seq<seq<string>>)
    requires |rows| == 2 && |rows[0]| == 2 && |rows[1]| == 2
    requires forall j, i :: 0 <= j < 2 && 0 <= i < 2 ==> |rows[j][i]| == 1
    ensures Widths(rows) == [1, 1]
  {
    var first := rows[..1];
    assert first[..0] == [] && first[0] == rows[0];
    assert rows[..1] == first;
    assert ColumnCount(first) == 2;
    assert ColumnCount(rows) == 2;
    assert ColumnMax(first, 0) == 1 && ColumnMax(first, 1) == 1;
    assert ColumnMax(rows, 0) == 1 && ColumnMax(rows, 1) == 1;
    assert |Widths(rows)| == 2 && Widths(rows)[0] == 1 && Widths(rows)[1] == 1;
  }

  /** Two one-character cells in columns of width one. */
  lemma PairLine(row: seq<string>, w: seq<nat>)
    requires |row| == 2 && |row[0]| == 1 && |row[1]| == 1 && w == [1, 1]
    ensures ToLine(row, w) == row[0] + " | " + row[1]
  {
    PadExact(row[0], 1);
    PadExact(row[1], 1);
    var cells := seq(2, i requires 0 <= i < 2 => Pad(row[i], WidthAt(w, i)));
    assert ToLine(row, w) == Join(cells, " | ");
    assert cells == [row[0], row[1]] && cells[1..] == [row[1]];
    assert Join(cells, " | ") == cells[0] + " | " + Join(cells[1..], " | ");
  }

  lemma UnitRule(w: seq<nat>)
    requires w == [1, 1]
    ensures Rule(w) == "--+--"
  {
    assert Repeat('-', 1) == "-";
    var dashes := seq(2, i requires 0 <= i < 2 => Repeat('-', w[i]));
    assert dashes == ["-", "-"] && dashes[1..] == ["-"];
    assert Join(dashes, "-+-") == "-" + "-+-" + Join(["-"], "-+-");
  }

  lemma TwoByTwoLines(rows: seq<seq<string>>, w: seq<nat>)
    requires |rows| == 2 && |rows[0]| == 2 && |rows[1]| == 2
    requires forall j, i :: 0 <= j < 2 && 0 <= i < 2 ==> |rows[j][i]| == 1
    requires w == [1, 1]
    ensures Framed(TableLines(rows, w))
      == "\n" + rows[0][0] + " | " + rows[0][1] + "\n--+--\n" + rows[1][0] + " | " + rows[1][1] + "\n"
  {
    var top, bottom := ToLine(rows[0], w), ToLine(rows[1], w);
    PairLine(rows[0], w);
    PairLine(rows[1], w);
    UnitRule(w);
    var lines := TableLines(rows, w);
    assert lines == [top, "--+--", bottom] by {
      assert rows[..1] == [rows[0]];
      assert TableLines(rows[..1], w) == [top, "--+--"];
    }
    assert Join(lines, "\n") == top + "\n" + ("--+--" + "\n" + bottom) by {
      assert lines[1..] == ["--+--", bottom] && lines[1..][1..] == [bottom];
      assert Join(lines[1..][1..], "\n") == bottom;
    }
  }

  /** A line "| a | b |" of two one-character cells. */
  lemma CellsOfPair(line: string, a: char, b: char)
    requires !IsSpace(a) && !IsSpace(b) && a != '|' && b != '|'
    requires line == "| " + [a] + " | " + [b] + " |"
    ensures Cells(line) == [[a], [b]]
  {
    var x, y := [' ', a, ' '], [' ', b, ' '];
    TrimSpaced(a);
    TrimSpaced(b);
    assert "| " + [a] + " | " + [b] + " |" == "|" + (x + "|" + y) + "|";
    CellsExample(x, y);
  }

  /** One visible character with a space on either side trims to itself. */
  lemma TrimSpaced(c: char)
    requires !IsSpace(c)
    ensures Trim([' ', c, ' ']) == [c]
  {
    var s := [' ', c, ' '];
    assert s[1..] == [c, ' '] && [c, ' '][1..] == [' '];
    assert TrimStart(s) == [c, ' '];
    assert [c, ' '][..1] == [c];
  }

  /** Two lines without newlines, joined by one, split back into the two. */
  lemma SplitLines(a: string, b: string, block: string)
    requires '\n' !in a && '\n' !in b && block == a + "\n" + b
    ensures SplitOn(block, '\n') == [a, b]
  {
    SplitOnWithout(b, '\n');
    SplitOnPrefix(a, b, '\n');
    assert a + ['\n'] + b == block;
  }

  /** Stripping the pipes of "|inner|" leaves inner. */
  lemma StripPipesFramed(inner: string)
    ensures StripPipes("|" + inner + "|") == inner
  {
    var line := "|" + inner + "|";
    assert line[0] == '|' && line[1..] == inner + "|";
    var a := inner + "|";
    assert a[|a| - 1] == '|' && a[..|a| - 1] == inner;
  }

  /** A string with no whitespace at either end is its own trim. */
  lemma TrimClean(s: string)
    requires |s| > 0 && !IsSpace(s[0]) && !IsSpace(s[|s| - 1])
    ensures Trim(s) == s
  {
    assert TrimStart(s) == s;
  }

  /** Cells of a line "|x|y|": the two pieces, trimmed. */
  lemma CellsExample(x: string, y: string)
    requires '|' !in x && '|' !in y
    ensures Cells("|" + (x + "|" + y) + "|") == [Trim(x), Trim(y)]
  {
    var inner := x + "|" + y;
    var line := "|" + inner + "|";
    assert SplitOn(StripPipes(Trim(line)), '|') == [x, y] by {
      TrimClean(line);
      StripPipesFramed(inner);
      assert x + ['|'] + y == inner;
      SplitPair(x, y, '|');
    }
    TwoCells(line, x, y);
  }

  /** Two pieces free of `c`, joined by one `c`, split back into the two. */
  lemma SplitPair(x: string, y: string, c: char)
    requires c !in x && c !in y
    ensures SplitOn(x + [c] + y, c) == [x, y]
  {
    SplitOnWithout(y, c);
    SplitOnPrefix(x, y, c);
  }

  /** A line whose pipe-separated parts are two has those parts, trimmed,
      as its cells. */
  lemma TwoCells(line: string, x: string, y: string)
    requires SplitOn(StripPipes(Trim(line)), '|') == [x, y]
    ensures Cells(line) == [Trim(x), Trim(y)]
  {
    var c := Cells(line);
    CellAt(line, [x, y], 0);
    CellAt(line, [x, y], 1);
    assert c == [c[0], c[1]];
  }

  /** Cell k of a line is the trim of its k-th pipe-separated part. */
  lemma CellAt(line: string, parts: seq<string>, k: nat)
    requires SplitOn(StripPipes(Trim(line)), '|') == parts && k < |parts|
    ensures |Cells(line)| == |parts| && Cells(line)[k] == Trim(parts[k])
  {}
}
