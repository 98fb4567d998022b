/**
 * How the diff viewer lays out a unified diff: nothing for an empty diff,
 * otherwise one row per line, each classed as a hunk header, an added line,
 * a removed line or context.
 */
module DiffViewer {
  import opened Wrappers
  import opened Strings
  import Differ

  datatype LineKind = Header | Add | Remove | Context

  /** The first matching rule wins: `@@`, then `+` but not `+++`, then `-` but not `---`. */
  function Classify(line: string): (k: LineKind)
    ensures k == Header <==> StartsWith(line, "@@")
    ensures k == Add <==> Differ.IsAddedLine(line)
    ensures k == Remove <==> Differ.IsRemovedLine(line)
  {
    if StartsWith(line, "@@") then
      assert line[0] == '@';
      Header
    else if StartsWith(line, "+") && !StartsWith(line, "+++") then Add
    else if StartsWith(line, "-") && !StartsWith(line, "---") then Remove
    else Context
  }

  function ClassName(k: LineKind): string {
    match k
    case Header => "diff-line diff-header"
    case Add => "diff-line diff-add"
    case Remove => "diff-line diff-remove"
    case Context => "diff-line diff-context"
  }

  datatype Row = Row(kind: LineKind, text: string)

  /** What the viewer shows: the "No diff to show" card, or the rows. */
  datatype View = NoDiff | Rows(rows: seq<Row>)

  function RowsOf(lines: seq<string>): (rows: seq<Row>)
    ensures |rows| == |lines|
    ensures forall i :: 0 <= i < |lines| ==> rows[i] == Row(Classify(lines[i]), lines[i])
  {
    if lines == [] then [] else [Row(Classify(lines[0]), lines[0])] + RowsOf(lines[1..])
  }

  /**
   * `DiffViewer`: only a null or empty diff shows the "No diff to show" card;
   * otherwise one row per piece of `diff.split("\n")`.
   */
  function Render(diff: Option<string>): (v: View)
    ensures v == NoDiff <==> diff.None? || diff.value == ""
    ensures v.Rows? ==> |v.rows| == |Split(diff.value, '\n')|
  {
    if !Truthy(diff) then NoDiff else Rows(RowsOf(Split(diff.value, '\n')))
  }

  function Texts(rows: seq<Row>): (r: seq<string>)
    ensures |r| == |rows|
    ensures forall i :: 0 <= i < |rows| ==> r[i] == rows[i].text
  {
    if rows == [] then [] else [rows[0].text] + Texts(rows[1..])
  }

  /** The indices of the rows of one kind. */
  function RowsOfKind(rows: seq<Row>, k: LineKind): set<int> {
    set i | 0 <= i < |rows| && rows[i].kind == k
  }

  /** A non-empty diff is shown in full: its rows, joined by newlines, give the diff back, and no row holds a newline. */
  lemma RowsRebuildDiff(diff: string)
    requires diff != ""
    ensures Render(Some(diff)).Rows?
    ensures Join(Texts(Render(Some(diff)).rows), "\n") == diff
    ensures forall i :: 0 <= i < |Render(Some(diff)).rows| ==> '\n' !in Render(Some(diff)).rows[i].text
  {
    var lines := Split(diff, '\n');
    assert Texts(RowsOf(lines)) == lines;
  }

  /** The add rows sit exactly at the indices of the added lines. */
  lemma AddRowsAtAddedLines(lines: seq<string>)
    ensures RowsOfKind(RowsOf(lines), Add) == Differ.AddedIndices(lines)
  {
    var rows := RowsOf(lines);
    forall i ensures i in RowsOfKind(rows, Add) <==> i in Differ.AddedIndices(lines) {
      if 0 <= i < |lines| {
        assert rows[i].kind == Classify(lines[i]);
      }
    }
  }

  /** The remove rows sit exactly at the indices of the removed lines. */
  lemma RemoveRowsAtRemovedLines(lines: seq<string>)
    ensures RowsOfKind(RowsOf(lines), Remove) == Differ.RemovedIndices(lines)
  {
    var rows := RowsOf(lines);
    forall i ensures i in RowsOfKind(rows, Remove) <==> i in Differ.RemovedIndices(lines) {
      if 0 <= i < |lines| {
        assert rows[i].kind == Classify(lines[i]);
      }
    }
  }

  /**
   * The viewer's add and remove rows are exactly the lines the diff engine
   * counts: as many add rows as `added` and as many remove rows as `removed`.
   */
  lemma RowsMatchCounts(diff: string)
    requires diff != ""
    ensures var rows := Render(Some(diff)).rows;
      var lines := Split(diff, '\n');
      && |RowsOfKind(rows, Add)| == Differ.CountAdded(lines)
      && |RowsOfKind(rows, Remove)| == Differ.CountRemoved(lines)
  {
    var lines := Split(diff, '\n');
    AddRowsAtAddedLines(lines);
    RemoveRowsAtRemovedLines(lines);
    Differ.CountAddedIsNumberOfAddedLines(lines);
    Differ.CountRemovedIsNumberOfRemovedLines(lines);
  }

  /** For a diff the engine computed, the viewer shows `added` add rows and `removed` remove rows. */
  lemma ViewerAgreesWithComputeDiff(r: Differ.DiffResult)
    requires r.unified != ""
    requires r.added == Differ.CountAdded(Split(r.unified, '\n'))
    requires r.removed == Differ.CountRemoved(Split(r.unified, '\n'))
    ensures |RowsOfKind(Render(Some(r.unified)).rows, Add)| == r.added
    ensures |RowsOfKind(Render(Some(r.unified)).rows, Remove)| == r.removed
  {
    RowsMatchCounts(r.unified);
  }
}
