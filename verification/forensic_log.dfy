/**
 * The append-only log `forensic_log.jsonl`: `open(log_file, "a")` followed by
 * one `write` of a serialised record and its "\n". The file is created when
 * it does not exist, and what it already holds is never rewritten.
 */
module ForensicLog {
  import opened Text

  class LogFile {
    /** Whether the file exists. */
    var present: bool
    /** The text of the file. */
    var text: string

    /**
     * A missing file holds nothing. An existing file may end in a partial
     * line, left by a run that stopped while writing.
     */
    ghost predicate Valid()
      reads this
    {
      !present ==> text == []
    }

    /** The text of the log split after each "\n", each line keeping its terminator. */
    function Lines(): seq<string>
      reads this
    {
      SplitLines(text)
    }

    /** A log file that does not exist yet. */
    constructor Missing()
      ensures Valid() && !present && text == []
    {
      present := false;
      text := [];
    }

    /** A log file holding whatever earlier invocations wrote. */
    constructor Existing(contents: string)
      ensures Valid() && present && text == contents
    {
      present := true;
      text := contents;
    }

    /**
     * `with open(log_file, "a") as f: f.write(entry + "\n")`. When the file
     * cannot be opened for appending the invocation fails and nothing is
     * written; `writable` says which case holds.
     */
    method Append(entry: string, writable: bool) returns (ok: bool)
      requires Valid()
      modifies this
      ensures Valid()
      ensures ok == writable
      ensures ok ==> present && text == old(text) + entry + "\n"
      ensures !ok ==> present == old(present) && text == old(text)
      ensures ok && '\n' !in entry && Terminated(old(text)) ==>
        Lines() == old(Lines()) + [entry + "\n"]
      ensures ok && '\n' !in entry && !Terminated(old(text)) ==>
        |old(Lines())| > 0 &&
        Lines() == old(Lines())[..|old(Lines())| - 1] + [old(Lines())[|old(Lines())| - 1] + entry + "\n"]
    {
      ok := writable;
      if !ok {
        return;
      }
      if '\n' !in entry {
        if Terminated(text) {
          AppendAddsOneLine(text, entry);
        } else {
          AppendToPartialLine(text, entry);
        }
      }
      present := true;
      text := text + entry + "\n";
    }
  }

  /**
   * Appending one newline-free entry keeps every existing line as it was and
   * adds exactly one line, the entry with its terminator, at the end.
   */
  lemma AppendAddsOneLine(text: string, entry: string)
    requires Terminated(text) && '\n' !in entry
    ensures SplitLines(text + entry + "\n") == SplitLines(text) + [entry + "\n"]
  {
    SplitLinesAppend(text, entry + "\n");
    SplitOneLine(entry);
    assert text + entry + "\n" == text + (entry + "\n");
  }

  /** How splitting treats the first character of a text. */
  lemma SplitLinesCons(c: char, t: string)
    ensures c == '\n' ==> SplitLines([c] + t) == ["\n"] + SplitLines(t)
    ensures c != '\n' && SplitLines(t) == [] ==> SplitLines([c] + t) == [[c]]
    ensures c != '\n' && SplitLines(t) != [] ==>
      SplitLines([c] + t) == [[c] + SplitLines(t)[0]] + SplitLines(t)[1..]
  {
    assert ([c] + t)[1..] == t;
  }

  /**
   * Appending to a log whose last line is partial glues the entry onto that
   * line: the earlier lines are kept and the line count does not grow.
   */
  lemma {:induction false} AppendToPartialLine(text: string, entry: string)
    requires !Terminated(text) && '\n' !in entry
    ensures |SplitLines(text)| > 0
    ensures var lines := SplitLines(text); var k := |lines| - 1;
      SplitLines(text + entry + "\n") == lines[..k] + [lines[k] + entry + "\n"]
  {
    var c, rest := text[0], text[1..];
    assert text == [c] + rest;
    assert text + entry + "\n" == [c] + (rest + entry + "\n");
    SplitLinesCons(c, rest);
    SplitLinesCons(c, rest + entry + "\n");
    if rest == [] {
      SplitOneLine(entry);
      assert rest + entry + "\n" == entry + "\n";
      SeqAssoc([c], entry, "\n");
    } else {
      AppendToPartialLine(rest, entry);
      GlueFront(c, SplitLines(rest), entry);
    }
  }

  /** The list-level step of `AppendToPartialLine`: gluing at the end commutes with a change at the front. */
  lemma GlueFront(c: char, r: seq<string>, entry: string)
    requires r != []
    ensures var k := |r| - 1; var r2 := r[..k] + [r[k] + entry + "\n"];
      && (c == '\n' ==> ["\n"] + r2 == (["\n"] + r)[..k + 1] + [(["\n"] + r)[k + 1] + entry + "\n"])
      && (c != '\n' ==>
            var l := [[c] + r[0]] + r[1..];
            [[c] + r2[0]] + r2[1..] == l[..k] + [l[k] + entry + "\n"])
  {
    var k := |r| - 1;
    var r2 := r[..k] + [r[k] + entry + "\n"];
    if c != '\n' {
      if k == 0 {
        SeqAssoc([c], r[0], entry + "\n");
        SeqAssoc([c] + r[0], entry, "\n");
        SeqAssoc(r[0], entry, "\n");
      } else {
        assert r2[0] == r[0];
        assert r2[1..] == r[1..k] + [r[k] + entry + "\n"];
      }
    }
  }

  /** The text `n` invocations write: each entry followed by "\n". */
  function Render(entries: seq<string>): (t: string)
    ensures Terminated(t)
  {
    if entries == [] then []
    else Render(entries[..|entries| - 1]) + entries[|entries| - 1] + "\n"
  }

  /** Each entry with its terminator, as a line of the log. */
  function AsLines(entries: seq<string>): (lines: seq<string>)
    ensures |lines| == |entries|
  {
    seq(|entries|, i requires 0 <= i < |entries| => entries[i] + "\n")
  }

  /** Rendering one more entry appends that entry and its terminator. */
  lemma RenderNext(text: string, entries: seq<string>)
    requires entries != []
    ensures text + Render(entries)
      == (text + Render(entries[..|entries| - 1])) + entries[|entries| - 1] + "\n"
  {
    var n := |entries| - 1;
    var r := Render(entries[..n]);
    assert Render(entries) == r + entries[n] + "\n";
    SeqAssoc(r, entries[n], "\n");
    SeqAssoc(text, r, entries[n] + "\n");
    SeqAssoc(text + r, entries[n], "\n");
  }

  lemma AsLinesNext(entries: seq<string>)
    requires entries != []
    ensures AsLines(entries)
      == AsLines(entries[..|entries| - 1]) + [entries[|entries| - 1] + "\n"]
  {
  }

  /**
   * After `n` invocations the log holds its earlier lines unchanged followed
   * by exactly `n` new lines, one per record, in the order they were written.
   */
  lemma {:induction false} AppendingRecords(text: string, entries: seq<string>)
    requires Terminated(text)
    requires forall i :: 0 <= i < |entries| ==> '\n' !in entries[i]
    ensures SplitLines(text + Render(entries)) == SplitLines(text) + AsLines(entries)
    ensures |SplitLines(text + Render(entries))| == |SplitLines(text)| + |entries|
  {
    if entries == [] {
      assert text + Render(entries) == text;
      assert AsLines(entries) == [];
      assert SplitLines(text) + [] == SplitLines(text);
    } else {
      var n := |entries| - 1;
      var prefix := entries[..n];
      var last := entries[n];
      AppendingRecords(text, prefix);
      var before := text + Render(prefix);
      AppendAddsOneLine(before, last);
      RenderNext(text, entries);
      AsLinesNext(entries);
      SeqAssoc(SplitLines(text), AsLines(prefix), [last + "\n"]);
    }
  }
}
