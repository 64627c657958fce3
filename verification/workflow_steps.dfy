/**
 * `count_workflow_steps`: the number of lines of the CI workflow file whose
 * stripped text starts with the step marker "- name:", or `None` when the
 * file cannot be opened, read or decoded.
 */
module WorkflowSteps {
  import opened Wrappers
  import opened Text
  import opened Files
  import opened Counting

  /** The literal that opens a step definition in the workflow file. */
  const Marker: string := "- name:"

  /** `line.strip().startswith("- name:")` */
  predicate IsStepLine(line: string) {
    StartsWith(Strip(line), Marker)
  }

  /**
   * `sum(1 for line in lines if line.strip().startswith("- name:"))`: the
   * number of step lines, never more than the number of lines.
   */
  function CountSteps(lines: seq<string>): (n: nat)
    ensures n <= |lines|
    ensures n == |StepIndices(lines)|
  {
    CountWhereIsIndexCount(lines, IsStepLine);
    CountWhere(lines, IsStepLine)
  }

  /** The positions of the lines that define a step. */
  ghost function StepIndices(lines: seq<string>): set<nat> {
    IndicesWhere(lines, IsStepLine)
  }

  /** No step is counted exactly when no line is a step line. */
  lemma CountStepsZeroIff(lines: seq<string>)
    ensures CountSteps(lines) == 0 <==> forall i :: 0 <= i < |lines| ==> !IsStepLine(lines[i])
  {
    CountWhereZeroIff(lines, IsStepLine);
  }

  /** The count of a file split into two pieces is the sum of the pieces' counts. */
  lemma CountStepsAppend(a: seq<string>, b: seq<string>)
    ensures CountSteps(a + b) == CountSteps(a) + CountSteps(b)
  {
    CountWhereAppend(a, b, IsStepLine);
  }

  /** `strip` may be replaced by `lstrip`: the marker ends in ':', so trailing whitespace never decides. */
  lemma StepLineIgnoresTrailing(line: string)
    ensures IsStepLine(line) <==> StartsWith(LStrip(line), Marker)
  {
    var l := LStrip(line);
    var r := RStrip(l);
    RStripSpec(l);
    if StartsWith(l, Marker) {
      assert l[6] == ':' && !IsSpace(l[6]);
      assert r[..7] == l[..7];
    }
    if StartsWith(r, Marker) {
      assert l[..7] == r[..7];
    }
  }

  lemma {:induction false} LStripAppendSpace(line: string, ws: string)
    requires AllSpace(ws)
    ensures LStrip(line + ws) == if AllSpace(line) then [] else LStrip(line) + ws
  {
    if line == [] {
      assert line + ws == ws;
      AllSpaceStrips(ws);
    } else {
      assert (line + ws)[1..] == line[1..] + ws;
      assert AllSpace(line) <==> IsSpace(line[0]) && AllSpace(line[1..]) by {
        if IsSpace(line[0]) && AllSpace(line[1..]) {
          forall i | 0 <= i < |line| ensures IsSpace(line[i]) {
            if i > 0 { assert line[i] == line[1..][i - 1]; }
          }
        }
      }
      if IsSpace(line[0]) {
        LStripAppendSpace(line[1..], ws);
      }
    }
  }

  lemma AllSpaceStrips(ws: string)
    requires AllSpace(ws)
    ensures LStrip(ws) == []
  {
  }

  /**
   * Whitespace after the text of a line, such as the "\n" that `readlines`
   * keeps, never changes whether the line counts as a step.
   */
  lemma TrailingWhitespaceIrrelevant(line: string, ws: string)
    requires AllSpace(ws)
    ensures IsStepLine(line + ws) <==> IsStepLine(line)
  {
    StepLineIgnoresTrailing(line);
    StepLineIgnoresTrailing(line + ws);
    LStripAppendSpace(line, ws);
    if !AllSpace(line) {
      var l := LStrip(line);
      if StartsWith(l, Marker) {
        assert (l + ws)[..7] == l[..7];
      }
      if StartsWith(l + ws, Marker) {
        if |l| <= 6 {
          SpaceInSuffix(l, ws, 6);
        }
        assert l[..7] == (l + ws)[..7];
      }
    } else {
      AllSpaceStrips(line);
    }
  }

  lemma SpaceInSuffix(l: string, ws: string, k: nat)
    requires AllSpace(ws) && |l| <= k < |l| + |ws|
    ensures IsSpace((l + ws)[k])
  {
    assert (l + ws)[k] == ws[k - |l|];
  }

  /** Indentation before the marker never changes whether the line counts as a step. */
  lemma {:induction false} LeadingWhitespaceIrrelevant(ws: string, line: string)
    requires AllSpace(ws)
    ensures IsStepLine(ws + line) <==> IsStepLine(line)
  {
    if ws != [] {
      assert (ws + line)[1..] == ws[1..] + line;
      LeadingWhitespaceIrrelevant(ws[1..], line);
    } else {
      assert ws + line == line;
    }
  }

  /**
   * `count_workflow_steps(path)`: `None` when the file cannot be read or its
   * bytes cannot be decoded as text; otherwise the number of step lines
   * among the lines `readlines()` returns.
   */
  function CountWorkflowSteps(fs: FileSystem, path: string, decode: Bytes -> Option<string>): (r: Option<nat>)
    ensures r.None? <==> path !in fs || decode(fs[path]).None?
    ensures r.Some? ==> r.value <= |ReadLines(decode(fs[path]).value)|
  {
    match ReadBytes(fs, path)
    case None => None
    case Some(data) =>
      match decode(data)
      case None => None
      case Some(text) => Some(CountSteps(ReadLines(text)))
  }

  /** An indented line with its terminator counts exactly when its text starts with the marker. */
  lemma IndentedLine(ws: string, text: string)
    requires AllSpace(ws) && text != []
    requires !IsSpace(text[0]) && !IsSpace(text[|text| - 1])
    ensures IsStepLine(ws + text + "\n") <==> StartsWith(text, Marker)
  {
    TrailingWhitespaceIrrelevant(ws + text, "\n");
    LeadingWhitespaceIrrelevant(ws, text);
    assert LStrip(text) == text;
    assert RStrip(text) == text;
  }

  /**
   * A five-line workflow with two step lines gives a step count of two. Each
   * line is written as its indentation, its text and its terminator.
   */
  lemma FiveLineExample(lines: seq<string>)
    requires |lines| == 5
    requires lines[0] == "" + "on: push" + "\n"
    requires lines[1] == "" + "steps:" + "\n"
    requires lines[2] == "  " + "- name: a" + "\n"
    requires lines[3] == "    " + "run: b" + "\n"
    requires lines[4] == "  " + "- name: c" + "\n"
    ensures CountSteps(lines) == 2
  {
    ExampleStepLine(lines[2], "a");
    ExampleStepLine(lines[4], "c");
    ExamplePlainLine(lines[0], "", "on: push");
    ExamplePlainLine(lines[1], "", "steps:");
    ExamplePlainLine(lines[3], "    ", "run: b");
    CountFiveLines(lines);
  }

  /** An indented `- name:` item is a step line. */
  lemma ExampleStepLine(line: string, name: string)
    requires name == "a" || name == "c"
    requires line == "  " + ("- name: " + name) + "\n"
    ensures IsStepLine(line)
  {
    IndentedLine("  ", "- name: " + name);
    assert StartsWith("- name: " + name, Marker);
  }

  /** The other lines of the example are not step lines. */
  lemma ExamplePlainLine(line: string, ws: string, text: string)
    requires ws == "" || ws == "    "
    requires text == "on: push" || text == "steps:" || text == "run: b"
    requires line == ws + text + "\n"
    ensures !IsStepLine(line)
  {
    IndentedLine(ws, text);
  }

  lemma CountFiveLines(lines: seq<string>)
    requires |lines| == 5
    requires !IsStepLine(lines[0]) && !IsStepLine(lines[1]) && IsStepLine(lines[2])
    requires !IsStepLine(lines[3]) && IsStepLine(lines[4])
    ensures CountSteps(lines) == 2
  {
    assert lines[..0] == [] && lines[..5] == lines;
    CountWherePrefix(lines, 0, IsStepLine);
    CountWherePrefix(lines, 1, IsStepLine);
    CountWherePrefix(lines, 2, IsStepLine);
    CountWherePrefix(lines, 3, IsStepLine);
    CountWherePrefix(lines, 4, IsStepLine);
  }
}
