/** The per-file scan of `CheckedFile::check_file`: split the file's text on
    line feeds, trim every line, and keep the trimmed lines that start with the
    style's marker together with their 1-based line numbers. Reading the file is
    not modelled: its text is an argument. */
module Scanner {
  import opened Text
  import opened Comments

  /** Rust's `Line`: the trimmed text of a comment line and its 1-based number. */
  datatype Line = Line(contents: string, number: nat)

  /** Rust's `CheckedFile`: a scanned entry's path and its comment lines in file order. */
  datatype CheckedFile = CheckedFile(path: string, commentLines: seq<Line>)

  /** The comment lines among `texts`, in order, each numbered by its position plus one.
      `texts` are a file's lines already trimmed: the source trims each line inside
      its loop, which comes to the same thing because no line's trimming depends on
      another line. */
  function Collect(texts: seq<string>, marker: string): (lines: seq<Line>)
    ensures |lines| <= |texts|
    ensures forall k :: 0 <= k < |lines| ==>
              && 1 <= lines[k].number <= |texts|
              && lines[k].contents == texts[lines[k].number - 1]
              && StartsWith(lines[k].contents, marker)
  {
    if |texts| == 0 then
      []
    else
      var n := |texts|;
      var before := Collect(texts[..n - 1], marker);
      if StartsWith(texts[n - 1], marker) then before + [Line(texts[n - 1], n)] else before
  }

  /** Line numbers strictly increase along the result. */
  predicate Increasing(lines: seq<Line>) {
    forall j, k :: 0 <= j < k < |lines| ==> lines[j].number < lines[k].number
  }

  /** Line `i + 1` appears in the result. */
  predicate Recorded(lines: seq<Line>, i: nat) {
    exists k :: 0 <= k < |lines| && lines[k].number == i + 1
  }

  /** What a correct scan of `texts` is, independently of how it is computed:
      every entry is one of the texts that is a comment line, stored under its
      position plus one; numbers strictly increase; and every comment line is recorded. */
  predicate IsExtraction(texts: seq<string>, marker: string, lines: seq<Line>) {
    && (forall k :: 0 <= k < |lines| ==>
          && 1 <= lines[k].number <= |texts|
          && lines[k].contents == texts[lines[k].number - 1]
          && StartsWith(texts[lines[k].number - 1], marker))
    && Increasing(lines)
    && (forall i {:trigger Recorded(lines, i)} :: 0 <= i < |texts| && StartsWith(texts[i], marker) ==> Recorded(lines, i))
  }

  /** Numbers in the result strictly increase, so no line is recorded twice. */
  lemma {:induction false} CollectIncreasing(texts: seq<string>, marker: string)
    ensures Increasing(Collect(texts, marker))
  {
    if |texts| > 0 {
      CollectIncreasing(texts[..|texts| - 1], marker);
    }
  }

  /** Completeness and soundness: a line is recorded exactly when it is a comment line. */
  lemma {:induction false} CollectComplete(texts: seq<string>, marker: string, i: nat)
    requires i < |texts|
    ensures StartsWith(texts[i], marker) <==> Recorded(Collect(texts, marker), i)
  {
    var n := |texts|;
    var before := Collect(texts[..n - 1], marker);
    var last := texts[n - 1];
    var lines := Collect(texts, marker);
    if i < n - 1 {
      CollectComplete(texts[..n - 1], marker, i);
      assert texts[..n - 1][i] == texts[i];
      if StartsWith(last, marker) {
        assert lines == before + [Line(last, n)];
        RecordedAppend(before, Line(last, n), i);
      } else {
        assert lines == before;
      }
    } else if StartsWith(last, marker) {
      assert lines == before + [Line(last, n)];
      assert lines[|lines| - 1].number == i + 1;
    } else {
      assert lines == before;
      assert forall k :: 0 <= k < |before| ==> before[k].number <= n - 1;
    }
  }

  /** Appending a line with another number leaves what is recorded unchanged. */
  lemma RecordedAppend(lines: seq<Line>, extra: Line, i: nat)
    requires extra.number != i + 1
    ensures Recorded(lines + [extra], i) <==> Recorded(lines, i)
  {
    var all := lines + [extra];
    if Recorded(all, i) {
      var k :| 0 <= k < |all| && all[k].number == i + 1;
      assert k < |lines| && lines[k] == all[k];
    }
    if Recorded(lines, i) {
      var k :| 0 <= k < |lines| && lines[k].number == i + 1;
      assert all[k] == lines[k];
    }
  }

  /** `Collect` meets the specification of a scan. */
  lemma CollectIsExtraction(texts: seq<string>, marker: string)
    ensures IsExtraction(texts, marker, Collect(texts, marker))
  {
    CollectIncreasing(texts, marker);
    forall i | 0 <= i < |texts| && StartsWith(texts[i], marker)
      ensures Recorded(Collect(texts, marker), i)
    {
      CollectComplete(texts, marker, i);
    }
  }

  /** A scan whose numbers stay below `|texts|` and that records every comment
      line before the last text is a scan of the texts without the last one. */
  lemma ExtractionOfPrefix(texts: seq<string>, marker: string, lines: seq<Line>)
    requires |texts| > 0
    requires forall k :: 0 <= k < |lines| ==>
               && 1 <= lines[k].number < |texts|
               && lines[k].contents == texts[lines[k].number - 1]
               && StartsWith(texts[lines[k].number - 1], marker)
    requires Increasing(lines)
    requires forall i {:trigger Recorded(lines, i)} :: 0 <= i < |texts| - 1 && StartsWith(texts[i], marker) ==> Recorded(lines, i)
    ensures IsExtraction(texts[..|texts| - 1], marker, lines)
  {
  }

  /** When the last text is a comment line, a scan ends with it. */
  lemma ExtractionEndsWithLast(texts: seq<string>, marker: string, lines: seq<Line>)
    requires |texts| > 0 && IsExtraction(texts, marker, lines)
    requires StartsWith(texts[|texts| - 1], marker)
    ensures |lines| > 0 && lines[|lines| - 1] == Line(texts[|texts| - 1], |texts|)
  {
    var n := |texts|;
    assert Recorded(lines, n - 1);
    var m := |lines|;
    var k :| 0 <= k < m && lines[k].number == n;
    assert lines[m - 1].number <= lines[k].number;
  }

  /** Dropping the entry for the last text leaves a scan of the other texts. */
  lemma ExtractionFront(texts: seq<string>, marker: string, lines: seq<Line>)
    requires |texts| > 0 && IsExtraction(texts, marker, lines)
    requires |lines| > 0 && lines[|lines| - 1].number == |texts|
    ensures IsExtraction(texts[..|texts| - 1], marker, lines[..|lines| - 1])
  {
    var n, m := |texts|, |lines|;
    var front := lines[..m - 1];
    forall j | 0 <= j < |front|
      ensures && 1 <= front[j].number < n
              && front[j].contents == texts[front[j].number - 1]
              && StartsWith(texts[front[j].number - 1], marker)
    {
      assert front[j] == lines[j] && lines[j].number < lines[m - 1].number;
    }
    assert Increasing(front);
    assert lines == front + [lines[m - 1]];
    forall i | 0 <= i < n - 1 && StartsWith(texts[i], marker)
      ensures Recorded(front, i)
    {
      RecordedAppend(front, lines[m - 1], i);
    }
    ExtractionOfPrefix(texts, marker, front);
  }

  /** When the last text is not a comment line, a scan is a scan of the other texts. */
  lemma ExtractionSkipsLast(texts: seq<string>, marker: string, lines: seq<Line>)
    requires |texts| > 0 && IsExtraction(texts, marker, lines)
    requires !StartsWith(texts[|texts| - 1], marker)
    ensures IsExtraction(texts[..|texts| - 1], marker, lines)
  {
    var n := |texts|;
    forall k | 0 <= k < |lines|
      ensures lines[k].number < n
    {
      var j := lines[k].number - 1;
      assert StartsWith(texts[j], marker);
    }
    ExtractionOfPrefix(texts, marker, lines);
  }

  /** Without comment lines the scan is empty. */
  lemma {:induction false} CollectNone(texts: seq<string>, marker: string)
    requires forall i :: 0 <= i < |texts| ==> !StartsWith(texts[i], marker)
    ensures Collect(texts, marker) == []
  {
    if |texts| > 0 {
      CollectNone(texts[..|texts| - 1], marker);
    }
  }

  /** The specification has one solution only, which is `Collect`. */
  lemma {:induction false} ExtractionIsCollect(texts: seq<string>, marker: string, lines: seq<Line>)
    requires IsExtraction(texts, marker, lines)
    ensures lines == Collect(texts, marker)
  {
    var n := |texts|;
    if |lines| == 0 {
      forall i | 0 <= i < n
        ensures !StartsWith(texts[i], marker)
      {
        assert !Recorded(lines, i);
      }
      CollectNone(texts, marker);
    } else {
      assert 1 <= lines[0].number <= n;
      var prefix := texts[..n - 1];
      var last := texts[n - 1];
      if StartsWith(last, marker) {
        ExtractionEndsWithLast(texts, marker, lines);
        ExtractionFront(texts, marker, lines);
        var m := |lines|;
        ExtractionIsCollect(prefix, marker, lines[..m - 1]);
        assert lines == lines[..m - 1] + [Line(last, n)];
      } else {
        ExtractionSkipsLast(texts, marker, lines);
        ExtractionIsCollect(prefix, marker, lines);
      }
    }
  }

  /** A sequence is a correct scan exactly when it is the one `Collect` computes. */
  lemma CollectCharacterized(texts: seq<string>, marker: string, lines: seq<Line>)
    ensures IsExtraction(texts, marker, lines) <==> lines == Collect(texts, marker)
  {
    CollectIsExtraction(texts, marker);
    if IsExtraction(texts, marker, lines) {
      ExtractionIsCollect(texts, marker, lines);
    }
  }

  /** Each of `segments`, trimmed. */
  function TrimAll(segments: seq<string>): (texts: seq<string>)
    ensures |texts| == |segments|
    ensures forall i :: 0 <= i < |segments| ==> texts[i] == Trim(segments[i])
  {
    if |segments| == 0 then [] else [Trim(segments[0])] + TrimAll(segments[1..])
  }

  /** The lines of a file's text, each trimmed: `contents.split("\n")` with `trim` applied. */
  function TrimmedLines(contents: string): (texts: seq<string>)
  {
    TrimAll(Split(contents, '\n'))
  }

  /** The loop of `check_file` as a function: the comment lines of a file's text.
      There are never more of them than the file has lines. */
  function ScanText(contents: string, marker: string): (lines: seq<Line>)
    ensures |lines| <= Count(contents, '\n') + 1
  {
    Collect(TrimmedLines(contents), marker)
  }

  /** Soundness: every recorded text starts with the marker and is already trimmed,
      so trimming it again changes nothing. */
  lemma ScanSound(contents: string, marker: string)
    ensures forall k :: 0 <= k < |ScanText(contents, marker)| ==>
              && StartsWith(ScanText(contents, marker)[k].contents, marker)
              && IsTrimmed(ScanText(contents, marker)[k].contents)
              && Trim(ScanText(contents, marker)[k].contents) == ScanText(contents, marker)[k].contents
  {
    var lines := ScanText(contents, marker);
    forall k | 0 <= k < |lines|
      ensures Trim(lines[k].contents) == lines[k].contents
    {
      var t := lines[k].contents;
      assert t == [] + t + [];
      TrimUnique(t, [], t, []);
    }
  }

  /** `line` is line number `line.number` of the file, trimmed. */
  predicate IsLineOf(contents: string, line: Line) {
    && 1 <= line.number <= Count(contents, '\n') + 1
    && line.contents == Trim(Split(contents, '\n')[line.number - 1])
  }

  /** Each entry is the trimmed line under its 1-based number, which is at most the
      number of line feeds plus one. */
  lemma ScanNumbering(contents: string, marker: string)
    ensures forall k :: 0 <= k < |ScanText(contents, marker)| ==> IsLineOf(contents, ScanText(contents, marker)[k])
  {
  }

  /** Line numbers strictly increase along the scan. */
  lemma ScanIncreasing(contents: string, marker: string)
    ensures Increasing(ScanText(contents, marker))
  {
    CollectIncreasing(TrimmedLines(contents), marker);
  }

  /** Completeness: line `i + 1` is recorded exactly when its trimmed text starts with the marker. */
  lemma ScanComplete(contents: string, marker: string, i: nat)
    requires i < |Split(contents, '\n')|
    ensures StartsWith(Trim(Split(contents, '\n')[i]), marker) <==> Recorded(ScanText(contents, marker), i)
  {
    CollectComplete(TrimmedLines(contents), marker, i);
  }

  /** `CheckedFile::check_file` once the entry's text has been read: the loop over
      `contents.split("\n").enumerate()`, pushing each trimmed line that starts
      with the style's marker under its index plus one. */
  method CheckFile(path: string, contents: string, commentType: CommentType) returns (file: CheckedFile)
    ensures file.path == path
    ensures file.commentLines == ScanText(contents, Marker(commentType))
  {
    var marker := Marker(commentType);
    var segments := Split(contents, '\n');
    ghost var texts := TrimAll(segments);
    var lines: seq<Line> := [];
    var number := 0;
    while number < |segments|
      invariant number <= |segments|
      invariant lines == Collect(texts[..number], marker)
    {
      var line := segments[number];
      assert texts[..number + 1][..number] == texts[..number];
      if StartsWith(Trim(line), marker) {
        lines := lines + [Line(Trim(line), number + 1)];
      }
      number := number + 1;
    }
    assert texts[..number] == texts;
    file := CheckedFile(path, lines);
  }

  /** One step of `Collect`: the scan of all texts extends the scan of all but the last. */
  lemma CollectStep(texts: seq<string>, marker: string, before: seq<Line>)
    requires |texts| > 0 && Collect(texts[..|texts| - 1], marker) == before
    ensures StartsWith(texts[|texts| - 1], marker) ==>
              Collect(texts, marker) == before + [Line(texts[|texts| - 1], |texts|)]
    ensures !StartsWith(texts[|texts| - 1], marker) ==> Collect(texts, marker) == before
  {
  }

  /** Three lines joined by line feeds split back into the three lines. */
  lemma SplitThree(a: string, b: string, c: string)
    requires '\n' !in a && '\n' !in b && '\n' !in c
    ensures Split(a + "\n" + b + "\n" + c, '\n') == [a, b, c]
  {
    var pieces := [a, b, c];
    assert pieces[1..][1..] == [c];
    assert Join(pieces[1..], '\n') == b + "\n" + c;
    assert Join(pieces, '\n') == a + "\n" + (b + "\n" + c);
    assert a + "\n" + b + "\n" + c == a + "\n" + (b + "\n" + c);
    SplitJoin(pieces, '\n');
  }

  /** Three lines joined by line feeds, the last one padded, trim to the three texts. */
  lemma ThreeLineTexts(c1: string, code: string, pad1: string, c2: string, pad2: string)
    requires '\n' !in c1 && '\n' !in code && '\n' !in pad1 && '\n' !in c2 && '\n' !in pad2
    requires IsTrimmed(c1) && IsTrimmed(code) && IsTrimmed(c2)
    requires AllWhitespace(pad1) && AllWhitespace(pad2)
    ensures TrimmedLines(c1 + "\n" + code + "\n" + pad1 + c2 + pad2) == [c1, code, c2]
  {
    var third := pad1 + c2 + pad2;
    assert c1 + "\n" + code + "\n" + pad1 + c2 + pad2 == c1 + "\n" + code + "\n" + third;
    SplitThree(c1, code, third);
    TrimUnique(c1, [], c1, []);
    TrimUnique(code, [], code, []);
    TrimUnique(third, pad1, c2, pad2);
  }

  /** The shape of a typical file: a comment, a line of code, and an indented comment
      with trailing blanks (for instance "# hello", "x = 1" and "  # world  " with
      the Python marker). The first and third lines are recorded, the third without
      its padding, and the code line is skipped. */
  lemma ThreeLineExample(c1: string, code: string, pad1: string, c2: string, pad2: string, marker: string)
    requires '\n' !in c1 && '\n' !in code && '\n' !in pad1 && '\n' !in c2 && '\n' !in pad2
    requires IsTrimmed(c1) && StartsWith(c1, marker)
    requires IsTrimmed(code) && !StartsWith(code, marker)
    requires IsTrimmed(c2) && StartsWith(c2, marker)
    requires AllWhitespace(pad1) && AllWhitespace(pad2)
    ensures ScanText(c1 + "\n" + code + "\n" + pad1 + c2 + pad2, marker) == [Line(c1, 1), Line(c2, 3)]
  {
    ThreeLineTexts(c1, code, pad1, c2, pad2);
    var texts := [c1, code, c2];
    assert texts[..1][..0] == [];
    CollectStep(texts[..1], marker, []);
    assert texts[..2][..1] == texts[..1];
    CollectStep(texts[..2], marker, [Line(c1, 1)]);
    assert texts[..2] == texts[..|texts| - 1];
    CollectStep(texts, marker, [Line(c1, 1)]);
  }
}
