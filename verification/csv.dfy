/** The CSV preview built by `handleFileSelect`: split the text on line
    feeds, drop blank lines, keep the first eleven, split each on commas
    and trim every cell. There is no quoting, escaping or type conversion. */
module CsvPreview {
  import opened Text
  import opened SeqFacts

  /** Rows kept for the preview: one header row and ten data rows. */
  const MaxPreviewRows: nat := 11

  /** `lines.filter(row => row.trim())`: the empty string is falsy, so a
      line survives exactly when trimming leaves something, that is (by
      `TrimEmptyIffBlank`) when it is not all whitespace. */
  function NonBlank(lines: seq<string>): (r: seq<string>)
    ensures |r| <= |lines|
  {
    if |lines| == 0 then []
    else
      var last := lines[|lines| - 1];
      NonBlank(lines[..|lines| - 1]) + (if !AllSpace(last) then [last] else [])
  }

  /** The kept lines are the subsequence of `lines` at exactly the positions
      holding a non-blank line, in their original order. */
  lemma {:induction false} NonBlankExact(lines: seq<string>) returns (idx: seq<nat>)
    ensures |idx| == |NonBlank(lines)|
    ensures forall k :: 0 <= k < |idx| ==> idx[k] < |lines| && NonBlank(lines)[k] == lines[idx[k]]
    ensures forall k, l :: 0 <= k < l < |idx| ==> idx[k] < idx[l]
    ensures forall j :: 0 <= j < |lines| ==> (j in idx <==> !AllSpace(lines[j]))
  {
    if |lines| == 0 {
      idx := [];
    } else {
      var n := |lines| - 1;
      var front := lines[..n];
      var pre := NonBlankExact(front);
      var keep := !AllSpace(lines[n]);
      var tail: seq<nat> := if keep then [n] else [];
      idx := pre + tail;
      var rf := NonBlank(front);
      var r := rf + (if keep then [lines[n]] else []);
      assert NonBlank(lines) == r;
      forall k | 0 <= k < |idx| ensures idx[k] < |lines| && r[k] == lines[idx[k]] {
        if k < |pre| {
          assert idx[k] == pre[k] && r[k] == rf[k];
          assert lines[pre[k]] == front[pre[k]];
        }
      }
      ExtendPositions(lines, pre, n);
    }
  }

  lemma ExtendPositions(lines: seq<string>, pre: seq<nat>, n: nat)
    requires n == |lines| - 1
    requires forall k :: 0 <= k < |pre| ==> pre[k] < n
    requires forall j :: 0 <= j < n ==> (j in pre <==> !AllSpace(lines[..n][j]))
    ensures var idx := pre + (if !AllSpace(lines[n]) then [n] else []);
      forall j :: 0 <= j < |lines| ==> (j in idx <==> !AllSpace(lines[j]))
  {
  }

  /** `row.split(',').map(cell => cell.trim())`. */
  function ParseRow(line: string): (r: seq<string>)
    ensures |r| == CountChar(line, ',') + 1
    ensures forall i :: 0 <= i < |r| ==> Trimmed(r[i]) && ',' !in r[i]
  {
    var pieces := Split(line, ',');
    seq(|pieces|, i requires 0 <= i < |pieces| => Trim(pieces[i]))
  }

  /** What each cell holds: the line is the comma-join of comma-free
      pieces, one per cell, and each cell is its piece trimmed. */
  lemma ParseRowCells(line: string) returns (pieces: seq<string>)
    ensures |pieces| == |ParseRow(line)|
    ensures Join(pieces, ',') == line
    ensures forall i :: 0 <= i < |pieces| ==> ',' !in pieces[i] && ParseRow(line)[i] == Trim(pieces[i])
  {
    pieces := Split(line, ',');
    JoinSplit(line, ',');
  }

  /** Parsing inverts writing: cells that carry no comma and no surrounding
      whitespace, joined with commas, parse back to exactly those cells. */
  lemma ParseRowJoin(cells: seq<string>)
    requires |cells| > 0
    requires forall i :: 0 <= i < |cells| ==> Trimmed(cells[i]) && ',' !in cells[i]
    ensures ParseRow(Join(cells, ',')) == cells
  {
    SplitJoin(cells, ',');
    forall i | 0 <= i < |cells| ensures Trim(cells[i]) == cells[i] {
      TrimTrimmed(cells[i]);
    }
  }

  /** The text split into lines on line feeds. */
  function Lines(text: string): seq<string>
  {
    Split(text, '\n')
  }

  /** The preview rows: the first eleven non-blank lines, each parsed. */
  function ParsePreview(text: string): (rows: seq<seq<string>>)
    ensures |rows| <= MaxPreviewRows
    ensures |rows| == Min(MaxPreviewRows, |NonBlank(Lines(text))|)
    ensures forall i :: 0 <= i < |rows| ==> |rows[i]| >= 1
  {
    var kept := NonBlank(Lines(text));
    var first := kept[..Min(MaxPreviewRows, |kept|)];
    seq(|first|, i requires 0 <= i < |first| => ParseRow(first[i]))
  }

  /** Each preview row is the parse of a non-blank line of the text; the
      rows come from increasing line positions; and no non-blank line is
      skipped before the last one used, nor at all when fewer than eleven
      rows were kept. */
  lemma PreviewExact(text: string) returns (idx: seq<nat>)
    ensures var lines := Lines(text);
      var rows := ParsePreview(text);
      && |idx| == |rows|
      && (forall k :: 0 <= k < |idx| ==> idx[k] < |lines| && !AllSpace(lines[idx[k]]) && rows[k] == ParseRow(lines[idx[k]]))
      && (forall k, l :: 0 <= k < l < |idx| ==> idx[k] < idx[l])
      && (forall j :: 0 <= j < |lines| && !AllSpace(lines[j]) && (|idx| < MaxPreviewRows || j <= idx[|idx| - 1]) ==> j in idx)
  {
    var lines := Lines(text);
    var all := NonBlankExact(lines);
    var kept := NonBlank(lines);
    var n := Min(MaxPreviewRows, |kept|);
    idx := all[..n];
    var rows := ParsePreview(text);
    forall k | 0 <= k < |idx|
      ensures idx[k] < |lines| && !AllSpace(lines[idx[k]]) && rows[k] == ParseRow(lines[idx[k]])
    {
      assert idx[k] == all[k] && idx[k] in all;
    }
    PrefixPositions(lines, all, n);
  }

  lemma PrefixPositions(lines: seq<string>, all: seq<nat>, n: nat)
    requires n <= |all|
    requires forall k, l :: 0 <= k < l < |all| ==> all[k] < all[l]
    requires forall j :: 0 <= j < |lines| ==> (j in all <==> !AllSpace(lines[j]))
    ensures forall j :: 0 <= j < |lines| && !AllSpace(lines[j]) && (n == |all| || (n > 0 && j <= all[n - 1])) ==> j in all[..n]
  {
    forall j | 0 <= j < |lines| && !AllSpace(lines[j]) && (n == |all| || (n > 0 && j <= all[n - 1]))
      ensures j in all[..n]
    {
      var k :| 0 <= k < |all| && all[k] == j;
      if n < |all| {
        assert forall m :: n <= m < |all| ==> all[n - 1] < all[m];
      }
      assert all[..n][k] == j;
    }
  }

  /** Every cell of every preview row has no surrounding whitespace; in
      particular the carriage return a CRLF line keeps after splitting on
      line feeds does not survive in the last cell. */
  lemma PreviewCellsTrimmed(text: string)
    ensures forall i, j :: 0 <= i < |ParsePreview(text)| && 0 <= j < |ParsePreview(text)[i]| ==>
      var cell := ParsePreview(text)[i][j];
      Trimmed(cell) && (|cell| > 0 ==> !IsSpace(cell[0]) && cell[|cell| - 1] != '\r')
  {
  }

  /** Rendering: `preview.slice(1, 11)`, the body below the header row. */
  function Body(preview: seq<seq<string>>): (r: seq<seq<string>>)
    ensures |r| <= MaxPreviewRows - 1
    ensures |preview| > 0 ==> r == preview[1..Min(MaxPreviewRows, |preview|)]
  {
    preview[Min(1, |preview|)..Min(MaxPreviewRows, |preview|)]
  }

  /** The rendered table drops nothing that was parsed: for any preview of
      at most eleven rows, which every parsed preview is, the header row
      followed by the body is the whole preview. */
  lemma TableShowsWholePreview(preview: seq<seq<string>>)
    requires 0 < |preview| <= MaxPreviewRows
    ensures [preview[0]] + Body(preview) == preview
  {
    assert preview == [preview[0]] + preview[1..];
  }
}
