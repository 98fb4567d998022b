/**
 * Diff engine: the digest used for the equality check, the added/removed
 * line counts of a unified diff, and the short preview snippet.
 *
 * The unified text itself comes from an LCS diff library (`createPatch`)
 * that is not part of this model; it is passed in as a function.
 */
module Differ {
  import opened Strings

  const DefaultSnippetLength: nat := 200

  datatype DiffResult = DiffResult(unified: string, added: nat, removed: nat, hasChanges: bool)

  /** The digest of a text; `sha256` stands for the hex-encoded SHA-256 of its UTF-8 bytes. */
  function ComputeHash(sha256: string -> string, text: string): string {
    sha256(text)
  }

  /** Equal texts have equal digests: two checks of unchanged content compare equal. */
  lemma HashDeterministic(sha256: string -> string, a: string, b: string)
    requires a == b
    ensures ComputeHash(sha256, a) == ComputeHash(sha256, b)
  {
  }

  /** A `+` line of a hunk; the `+++` file header is not one. */
  predicate IsAddedLine(line: string) {
    StartsWith(line, "+") && !StartsWith(line, "+++")
  }

  /** A `-` line of a hunk; the `---` file header is not one. */
  predicate IsRemovedLine(line: string) {
    StartsWith(line, "-") && !StartsWith(line, "---")
  }

  predicate IsChangedLine(line: string) {
    IsAddedLine(line) || IsRemovedLine(line)
  }

  function CountAdded(lines: seq<string>): nat {
    if lines == [] then 0
    else CountAdded(lines[..|lines| - 1]) + (if IsAddedLine(lines[|lines| - 1]) then 1 else 0)
  }

  function CountRemoved(lines: seq<string>): nat {
    if lines == [] then 0
    else CountRemoved(lines[..|lines| - 1]) + (if IsRemovedLine(lines[|lines| - 1]) then 1 else 0)
  }

  /** The indices of the added lines. */
  function AddedIndices(lines: seq<string>): set<int> {
    set i | 0 <= i < |lines| && IsAddedLine(lines[i])
  }

  /** The indices of the removed lines. */
  function RemovedIndices(lines: seq<string>): set<int> {
    set i | 0 <= i < |lines| && IsRemovedLine(lines[i])
  }

  /** `CountAdded` is the number of lines that start with `+` but not with `+++`. */
  lemma {:induction false} CountAddedIsNumberOfAddedLines(lines: seq<string>)
    ensures CountAdded(lines) == |AddedIndices(lines)|
    decreases |lines|
  {
    if lines != [] {
      var n := |lines| - 1;
      var init := lines[..n];
      CountAddedIsNumberOfAddedLines(init);
      if IsAddedLine(lines[n]) {
        assert AddedIndices(lines) == AddedIndices(init) + {n};
      } else {
        assert AddedIndices(lines) == AddedIndices(init);
      }
    }
  }

  /** `CountRemoved` is the number of lines that start with `-` but not with `---`. */
  lemma {:induction false} CountRemovedIsNumberOfRemovedLines(lines: seq<string>)
    ensures CountRemoved(lines) == |RemovedIndices(lines)|
    decreases |lines|
  {
    if lines != [] {
      var n := |lines| - 1;
      var init := lines[..n];
      CountRemovedIsNumberOfRemovedLines(init);
      if IsRemovedLine(lines[n]) {
        assert RemovedIndices(lines) == RemovedIndices(init) + {n};
      } else {
        assert RemovedIndices(lines) == RemovedIndices(init);
      }
    }
  }

  /**
   * `computeDiff`: builds the unified diff of the two texts and counts its
   * added and removed lines in one pass over its `\n`-separated lines.
   */
  method ComputeDiff(createPatch: (string, string) -> string, oldText: string, newText: string)
    returns (r: DiffResult)
    ensures r.unified == createPatch(oldText, newText)
    ensures r.added == CountAdded(Split(r.unified, '\n'))
    ensures r.removed == CountRemoved(Split(r.unified, '\n'))
    ensures r.hasChanges <==> r.added > 0 || r.removed > 0
  {
    var unified := createPatch(oldText, newText);
    var added: nat := 0;
    var removed: nat := 0;
    var lines := Split(unified, '\n');
    var i := 0;
    while i < |lines|
      invariant 0 <= i <= |lines|
      invariant added == CountAdded(lines[..i])
      invariant removed == CountRemoved(lines[..i])
    {
      var line := lines[i];
      assert lines[..i + 1][..i] == lines[..i];
      if StartsWith(line, "+") && !StartsWith(line, "+++") {
        added := added + 1;
      } else if StartsWith(line, "-") && !StartsWith(line, "---") {
        removed := removed + 1;
      }
      i := i + 1;
    }
    assert lines[..i] == lines;
    var hasChanges := added > 0 || removed > 0;
    r := DiffResult(unified, added, removed, hasChanges);
  }

  /** The changed lines of a diff, in diff order. */
  function ChangedLines(lines: seq<string>): (r: seq<string>)
    ensures forall x :: x in r ==> x in lines && IsChangedLine(x)
    ensures forall x :: x in lines && IsChangedLine(x) ==> x in r
    ensures |r| == CountAdded(lines) + CountRemoved(lines)
  {
    if lines == [] then []
    else
      var init := ChangedLines(lines[..|lines| - 1]);
      var last := lines[|lines| - 1];
      assert lines == lines[..|lines| - 1] + [last];
      if IsChangedLine(last) then init + [last] else init
  }

  lemma {:induction false} ChangedLinesAppend(a: seq<string>, b: seq<string>)
    ensures ChangedLines(a + b) == ChangedLines(a) + ChangedLines(b)
    decreases |b|
  {
    if b == [] {
      assert a + b == a;
    } else {
      var n := |b| - 1;
      assert (a + b)[..|a + b| - 1] == a + b[..n];
      ChangedLinesAppend(a, b[..n]);
    }
  }

  /** Joining a list gives a prefix of joining any extension of it. */
  lemma {:induction false} JoinPrefix(a: seq<string>, b: seq<string>, sep: string)
    ensures StartsWith(Join(a + b, sep), Join(a, sep))
    decreases |a|
  {
    if |a| == 0 {
    } else if |a| == 1 {
      if |b| > 0 {
        assert (a + b)[1..] == b;
      } else {
        assert a + b == a;
      }
    } else {
      assert (a + b)[1..] == a[1..] + b;
      JoinPrefix(a[1..], b, sep);
    }
  }

  /** The changed lines of the diff, joined with single spaces. */
  function ChangedText(diff: string): string {
    Join(ChangedLines(Split(diff, '\n')), " ")
  }

  lemma {:induction false} NoNewlineInJoin(parts: seq<string>)
    requires forall x :: x in parts ==> '\n' !in x
    ensures '\n' !in Join(parts, " ")
    decreases |parts|
  {
    if |parts| > 1 {
      NoNewlineInJoin(parts[1..]);
      assert '\n' !in parts[0];
    }
  }

  /**
   * The preview of a diff: its changed lines joined with spaces, cut to
   * `maxLength` characters, with "..." appended exactly when the cut part is
   * `maxLength` long (so also when the text fits exactly and nothing was cut).
   */
  function Snippet(diff: string, maxLength: nat): (r: string)
    ensures |ChangedText(diff)| < maxLength ==> r == ChangedText(diff)
    ensures |ChangedText(diff)| >= maxLength ==> r == ChangedText(diff)[..maxLength] + "..."
    ensures |r| <= maxLength + 3
    ensures '\n' !in r
  {
    var all := Split(diff, '\n');
    var lines := ChangedLines(all);
    assert forall x :: x in all ==> '\n' !in x;
    NoNewlineInJoin(lines);
    var joined := Join(lines, " ");
    var cut := joined[..if maxLength < |joined| then maxLength else |joined|];
    if |cut| == maxLength then cut + "..." else cut
  }

  /** One more line extends the changed lines by that line exactly when it is a changed line. */
  lemma ChangedLinesStep(lines: seq<string>, i: nat)
    requires i < |lines|
    ensures ChangedLines(lines[..i + 1])
      == ChangedLines(lines[..i]) + (if IsChangedLine(lines[i]) then [lines[i]] else [])
  {
    assert lines[..i + 1][..i] == lines[..i];
  }

  /** Once the joined changed lines of a prefix exceed `maxLength`, the rest cannot change its first `maxLength` characters. */
  lemma EarlyStopKeepsPreview(lines: seq<string>, i: nat, maxLength: nat)
    requires i <= |lines|
    requires |Join(ChangedLines(lines[..i]), " ")| > maxLength
    ensures |Join(ChangedLines(lines), " ")| > maxLength
    ensures Join(ChangedLines(lines), " ")[..maxLength] == Join(ChangedLines(lines[..i]), " ")[..maxLength]
  {
    assert lines == lines[..i] + lines[i..];
    ChangedLinesAppend(lines[..i], lines[i..]);
    JoinPrefix(ChangedLines(lines[..i]), ChangedLines(lines[i..]), " ");
  }

  /**
   * `extractSnippet`: collects changed lines until their join is longer than
   * `maxLength`, then cuts it; the early stop does not change the result.
   */
  method ExtractSnippet(diff: string, maxLength: nat) returns (snippet: string)
    ensures snippet == Snippet(diff, maxLength)
  {
    var lines := Split(diff, '\n');
    var changedLines: seq<string> := [];
    var i := 0;
    while i < |lines|
      invariant 0 <= i <= |lines|
      invariant changedLines == ChangedLines(lines[..i])
      invariant |Join(changedLines, " ")| <= maxLength
    {
      var line := lines[i];
      ChangedLinesStep(lines, i);
      if (StartsWith(line, "+") && !StartsWith(line, "+++"))
        || (StartsWith(line, "-") && !StartsWith(line, "---"))
      {
        changedLines := changedLines + [line];
      }
      i := i + 1;
      if |Join(changedLines, " ")| > maxLength {
        break;
      }
    }
    var joined := Join(changedLines, " ");
    var cut := joined[..if maxLength < |joined| then maxLength else |joined|];
    snippet := if |cut| == maxLength then cut + "..." else cut;

    if |joined| > maxLength {
      EarlyStopKeepsPreview(lines, i, maxLength);
    } else {
      assert lines[..i] == lines;
    }
  }
}
