/** The state of the import page and its file-selection handler. Reading the
    file's contents is asynchronous in the page; here the text is part of
    the selection, and the handler's effect is the state after both of its
    updates have landed. */
module ImportPage {
  import opened Wrappers
  import opened Text
  import opened CsvPreview

  datatype UploadStatus = Idle | Success | Error

  /** A file picked in the file input: its name and its full text. */
  datatype SelectedFile = SelectedFile(name: string, text: string)

  datatype ImportState = ImportState(
    file: Option<SelectedFile>,
    preview: seq<seq<string>>,
    uploading: bool,
    uploadStatus: UploadStatus,
    errorMessage: string)

  const CsvExtension: string := ".csv"
  const InvalidFileMessage: string := "Please select a valid CSV file"

  const Initial: ImportState := ImportState(None, [], false, Idle, "")

  /** Whether the handler accepts a file: its name ends in `.csv`, with that
      exact case. */
  predicate Accepted(f: SelectedFile)
  {
    EndsWith(f.name, CsvExtension)
  }

  /** `handleFileSelect`. No file: nothing happens. A name not ending in
      `.csv`: the error message and status are set and the previously
      selected file and preview stay. Otherwise the file is taken, the
      status and message are cleared and the preview is parsed from its
      text. The `uploading` flag is never touched. */
  function HandleFileSelect(s: ImportState, selected: Option<SelectedFile>): (r: ImportState)
    ensures r.uploading == s.uploading
    ensures selected.None? ==> r == s
    ensures selected.Some? && !Accepted(selected.value) ==>
      r.file == s.file && r.preview == s.preview
      && r.uploadStatus == Error && r.errorMessage == InvalidFileMessage
    ensures selected.Some? && Accepted(selected.value) ==>
      r.file == selected && r.uploadStatus == Idle && r.errorMessage == ""
      && r.preview == ParsePreview(selected.value.text)
  {
    match selected
    case None => s
    case Some(f) =>
      if !Accepted(f) then
        s.(errorMessage := InvalidFileMessage, uploadStatus := Error)
      else
        s.(file := Some(f), uploadStatus := Idle, errorMessage := "", preview := ParsePreview(f.text))
  }

  /** Once a file is picked, the page reports an error exactly when the
      file's name does not end in `.csv`, and the error message is empty
      exactly when the file was accepted. */
  lemma SelectReportsErrorIffRejected(s: ImportState, f: SelectedFile)
    ensures HandleFileSelect(s, Some(f)).uploadStatus == Error <==> !Accepted(f)
    ensures HandleFileSelect(s, Some(f)).errorMessage == "" <==> Accepted(f)
  {
  }

  /** Whatever state the page was in, an accepted file leaves a preview of
      at most eleven rows whose cells carry no comma and no surrounding
      whitespace. */
  lemma AcceptedPreviewWellFormed(s: ImportState, f: SelectedFile)
    requires Accepted(f)
    ensures var p := HandleFileSelect(s, Some(f)).preview;
      && |p| <= MaxPreviewRows
      && (forall i, j :: 0 <= i < |p| && 0 <= j < |p[i]| ==> Trimmed(p[i][j]) && ',' !in p[i][j])
  {
  }

  /** The accepted state depends only on the file picked: the previous
      state's file, preview, status and message are all overwritten. */
  lemma AcceptedForgetsPrevious(s: ImportState, t: ImportState, f: SelectedFile)
    requires Accepted(f) && s.uploading == t.uploading
    ensures HandleFileSelect(s, Some(f)) == HandleFileSelect(t, Some(f))
  {
  }

  /** Picking the same selection twice has the effect of picking it once. */
  lemma HandleFileSelectIdempotent(s: ImportState, selected: Option<SelectedFile>)
    ensures HandleFileSelect(HandleFileSelect(s, selected), selected) == HandleFileSelect(s, selected)
  {
  }

  /** The extension check is a plain case-sensitive suffix test: `data.txt`
      and `data.CSV` are both rejected, and the bare name `.csv` is
      accepted. */
  lemma ExtensionExamples()
    ensures !Accepted(SelectedFile("data.txt", ""))
    ensures !Accepted(SelectedFile("data.CSV", ""))
    ensures Accepted(SelectedFile(".csv", ""))
  {
    assert "data.txt"[4..] != ".csv" by { assert "data.txt"[4..][1] == 't'; }
    assert "data.CSV"[4..] != ".csv" by { assert "data.CSV"[4..][1] == 'C'; }
  }

  /** A small file read end to end: a header and two data rows, with a
      carriage return and a blank line that do not reach the preview. */
  lemma ImportExample()
    ensures HandleFileSelect(Initial, Some(SelectedFile("p.csv", "a, b\r\n\n1,2"))).preview
      == [["a", "b"], ["1", "2"]]
  {
    assert Accepted(SelectedFile("p.csv", "a, b\r\n\n1,2")) by {
      assert "p.csv"[1..] == ".csv";
    }
    ExamplePreview();
  }

  lemma ExamplePreview()
    ensures ParsePreview("a, b\r\n\n1,2") == [["a", "b"], ["1", "2"]]
  {
    ExampleLines();
    PreviewOfTwoLines("a, b\r\n\n1,2");
  }

  lemma PreviewOfTwoLines(text: string)
    requires NonBlank(Lines(text)) == ["a, b\r", "1,2"]
    ensures ParsePreview(text) == [["a", "b"], ["1", "2"]]
  {
    ExampleRows();
    var rows := ParsePreview(text);
    assert |rows| == 2;
    assert rows[0] == ParseRow("a, b\r");
    assert rows[1] == ParseRow("1,2");
  }

  lemma ExampleLines()
    ensures NonBlank(Lines("a, b\r\n\n1,2")) == ["a, b\r", "1,2"]
  {
    var lines := ["a, b\r", "", "1,2"];
    assert Join(lines, '\n') == "a, b\r\n\n1,2";
    SplitJoin(lines, '\n');
    assert !IsSpace(lines[0][0]) && !IsSpace(lines[2][0]);
    NonBlankMiddleBlank(lines);
  }

  lemma NonBlankMiddleBlank(lines: seq<string>)
    requires |lines| == 3 && |lines[0]| > 0 && |lines[1]| == 0 && |lines[2]| > 0
    requires !IsSpace(lines[0][0]) && !IsSpace(lines[2][0])
    ensures NonBlank(lines) == [lines[0], lines[2]]
  {
    assert !AllSpace(lines[0]) && AllSpace(lines[1]) && !AllSpace(lines[2]);
    var two := lines[..2];
    assert two[..1] == [lines[0]] && two[1] == lines[1];
    assert NonBlank(two[..1]) == [lines[0]] by {
      assert two[..1][..0] == [];
    }
    assert NonBlank(two) == [lines[0]];
  }

  lemma ExampleRows()
    ensures ParseRow("a, b\r") == ["a", "b"]
    ensures ParseRow("1,2") == ["1", "2"]
  {
    HeaderRow();
    ParseRowJoin(["1", "2"]);
    assert Join(["1", "2"], ',') == "1,2";
  }

  lemma HeaderRow()
    ensures ParseRow("a, b\r") == ["a", "b"]
  {
    assert Join(["a", " b\r"], ',') == "a, b\r";
    SplitJoin(["a", " b\r"], ',');
    SpacedCell(" b\r", 'b');
    TrimTrimmed("a");
    TwoCells("a, b\r", "a", " b\r");
  }

  lemma TwoCells(line: string, x: string, y: string)
    requires Split(line, ',') == [x, y]
    ensures ParseRow(line) == [Trim(x), Trim(y)]
  {
  }

  /** A single visible character with a space before and a carriage
      return after trims to itself. */
  lemma SpacedCell(s: string, c: char)
    requires s == [' ', c, '\r'] && !IsSpace(c)
    ensures Trim(s) == [c]
  {
    assert LeadingSpace(s[1..]) == 0;
    assert LeadingSpace(s) == 1;
    assert s[1..] == [c, '\r'];
    assert TrimEnd([c]) == [c];
    assert TrimEnd(s[1..]) == [c];
  }
}
