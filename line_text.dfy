/**
 * The text side of the line store: a file's content is a string, and the
 * store reads it as a sequence of lines split on '\n' and writes lines back
 * joined by "\n".
 *
 * Split and Join are both defined from the END of their argument (the last
 * character, the last line), which is the order in which a stream reader
 * sees the text.
 */
module LineText {

  /** The last element of a non-empty sequence. */
  function Last<T>(s: seq<T>): T
    requires |s| > 0
  {
    s[|s| - 1]
  }

  /** A line as the store hands it out never holds a line terminator. */
  predicate NoNewline(line: string) {
    '\n' !in line
  }

  predicate AllNoNewline(lines: seq<string>) {
    forall i :: 0 <= i < |lines| ==> NoNewline(lines[i])
  }

  predicate EndsWithNewline(s: string) {
    |s| > 0 && Last(s) == '\n'
  }

  /**
   * What one more character does to the segments read so far: a newline
   * starts a new, empty segment, any other character extends the last one.
   */
  function Feed(segs: seq<string>, c: char): (next: seq<string>)
    requires |segs| > 0
    ensures |next| > 0
  {
    if c == '\n' then segs + [""] else segs[..|segs| - 1] + [Last(segs) + [c]]
  }

  /**
   * The segments of `s` between '\n' characters, including the (possibly
   * empty) segment after the last one.
   */
  function Split(s: string): (segs: seq<string>)
    ensures |segs| > 0
    ensures AllNoNewline(segs)
    decreases |s|
  {
    if s == [] then [""] else Feed(Split(s[..|s| - 1]), Last(s))
  }

  /**
   * The lines of a file as a line reader yields them: the segments of
   * Split, except that a final empty segment (the file is empty or ends
   * with a newline) is not a line.
   */
  function Lines(content: string): (lines: seq<string>)
    ensures AllNoNewline(lines)
    ensures lines == [] <==> content == []
  {
    var segs := Split(content);
    if Last(segs) == "" then segs[..|segs| - 1] else segs
  }

  /**
   * `lines` joined with "\n" between consecutive lines, none after the last:
   * the text starts with the first line and, when the last line is
   * non-empty, ends with that line's last character.
   */
  function Join(lines: seq<string>): (s: string)
    ensures |lines| > 0 ==> lines[0] <= s
    ensures |lines| > 0 && Last(lines) != [] ==> s != [] && Last(s) == Last(Last(lines))
  {
    if |lines| == 0 then ""
    else if |lines| == 1 then lines[0]
    else Join(lines[..|lines| - 1]) + "\n" + Last(lines)
  }

  /** The last segment is empty exactly when the text is empty or ends with '\n'. */
  lemma LastSegmentEmpty(s: string)
    ensures Last(Split(s)) == "" <==> (s == [] || EndsWithNewline(s))
  {
  }

  /** Split unfolded once: the segments of `s + [c]` are those of `s` fed `c`. */
  lemma SplitSnoc(s: string, c: char)
    ensures Split(s + [c]) == Feed(Split(s), c)
  {
    assert (s + [c])[..|s|] == s;
  }

  /** Feeding a character to `left + right` changes only `right`. */
  lemma FeedConcat(left: seq<string>, right: seq<string>, c: char)
    requires |right| > 0
    ensures Feed(left + right, c) == left + Feed(right, c)
  {
    assert (left + right)[..|left + right| - 1] == left + right[..|right| - 1];
  }

  /** One more character after the newline extends only the right-hand side. */
  lemma SplitConcatStep(a: string, b: string, c: char)
    requires Split(a + "\n" + b) == Split(a) + Split(b)
    ensures Split(a + "\n" + b + [c]) == Split(a) + Split(b + [c])
  {
    SplitSnoc(a + "\n" + b, c);
    SplitSnoc(b, c);
    FeedConcat(Split(a), Split(b), c);
  }

  /** There is one segment more than there are newlines. */
  lemma {:induction false} SplitCount(s: string)
    ensures |Split(s)| == multiset(s)['\n'] + 1
    decreases |s|
  {
    if s != [] {
      var s' := s[..|s| - 1];
      assert s == s' + [Last(s)];
      SplitCount(s');
      SplitSnoc(s', Last(s));
    }
  }

  /** Splitting at a newline splits the two sides independently. */
  lemma {:induction false} SplitConcat(a: string, b: string)
    ensures Split(a + "\n" + b) == Split(a) + Split(b)
    decreases |b|
  {
    if b == [] {
      SplitSnoc(a, '\n');
      assert a + "\n" + b == a + ['\n'];
    } else {
      var b', c := b[..|b| - 1], Last(b);
      SplitConcat(a, b');
      SplitConcatStep(a, b', c);
      DropLast(a + "\n", b);
      assert b' + [c] == b;
    }
  }

  /** A non-empty right operand ends the concatenation. */
  lemma DropLast<T>(a: seq<T>, b: seq<T>)
    requires |b| > 0
    ensures a + b == a + b[..|b| - 1] + [Last(b)]
  {
    assert b == b[..|b| - 1] + [Last(b)];
  }

  /** A string without a newline is a single segment. */
  lemma {:induction false} SplitNoNewline(line: string)
    requires NoNewline(line)
    ensures Split(line) == [line]
    decreases |line|
  {
    if line != [] {
      var init := line[..|line| - 1];
      assert line == init + [Last(line)];
      SplitNoNewline(init);
    }
  }

  /** Joining the segments of a text gives the text back. */
  lemma {:induction false} JoinSplit(s: string)
    ensures Join(Split(s)) == s
    decreases |s|
  {
    if s != [] {
      var s' := s[..|s| - 1];
      assert s == s' + [Last(s)];
      JoinSplit(s');
      var init := Split(s');
      var segs := Split(s);
      if Last(s) == '\n' {
        assert segs == init + [""];
        assert segs[..|segs| - 1] == init;
      } else if |init| > 1 {
        assert segs == init[..|init| - 1] + [Last(init) + [Last(s)]];
        assert segs[..|segs| - 1] == init[..|init| - 1];
        assert Join(init) == Join(init[..|init| - 1]) + "\n" + Last(init);
      }
    }
  }

  /** Splitting a join of newline-free lines gives the lines back. */
  lemma {:induction false} SplitJoin(lines: seq<string>)
    requires |lines| > 0 && AllNoNewline(lines)
    ensures Split(Join(lines)) == lines
    decreases |lines|
  {
    if |lines| == 1 {
      SplitNoNewline(lines[0]);
    } else {
      var init := lines[..|lines| - 1];
      SplitJoin(init);
      SplitConcat(Join(init), Last(lines));
      SplitNoNewline(Last(lines));
      assert lines == init + [Last(lines)];
    }
  }

  /**
   * Reading lines and joining them again reproduces the content, except for
   * a final newline, which the reader drops.
   */
  lemma JoinLines(content: string)
    ensures Join(Lines(content)) + (if EndsWithNewline(content) then "\n" else "") == content
  {
    LastSegmentEmpty(content);
    JoinSplit(content);
    if EndsWithNewline(content) {
      var c' := content[..|content| - 1];
      JoinSplit(c');
      assert Lines(content) == Split(c');
      assert content == c' + "\n";
    }
  }

  /**
   * Writing newline-free lines joined by "\n" and reading them back gives
   * the same lines exactly when there are none or the last one is not empty:
   * a trailing empty line does not survive the round trip.
   */
  lemma LinesOfJoin(lines: seq<string>)
    requires AllNoNewline(lines)
    ensures Lines(Join(lines)) == lines <==> (lines == [] || Last(lines) != "")
    ensures lines != [] && Last(lines) == "" ==> Lines(Join(lines)) == lines[..|lines| - 1]
  {
    if lines != [] {
      SplitJoin(lines);
      if Last(lines) == "" {
        assert |Lines(Join(lines))| == |lines| - 1;
      }
    }
  }

  /**
   * Appending "\n" followed by a non-empty value: the old text keeps all its
   * segments, including an empty last one (so appending to an empty or
   * newline-terminated text leaves an empty line before the new one), and the
   * value contributes its own lines.
   */
  lemma AppendLines(content: string, value: string)
    requires value != []
    ensures Lines(content + "\n" + value) == Split(content) + Lines(value)
  {
    SplitConcat(content, value);
    LastSegmentEmpty(value);
  }

  /** The same for a value that is a single line, in terms of the old lines. */
  lemma AppendOneLine(content: string, line: string)
    requires line != [] && NoNewline(line)
    ensures Lines(content + "\n" + line)
         == Lines(content) + (if content == [] || EndsWithNewline(content) then [""] else []) + [line]
  {
    AppendLines(content, line);
    SplitNoNewline(line);
    assert Lines(line) == [line];
    LastSegmentEmpty(content);
    var segs := Split(content);
    if Last(segs) == "" {
      assert segs == Lines(content) + [""];
    } else {
      assert segs == Lines(content);
    }
  }

  /** `content` after one append of "\n" + v for each value v, in order. */
  function AppendAll(content: string, values: seq<string>): string {
    if values == [] then content
    else AppendAll(content, values[..|values| - 1]) + "\n" + Last(values)
  }

  /**
   * A file written only by appends of non-empty single lines, starting from
   * nothing, reads back as an empty line followed by the appended lines in
   * order, and never ends with a newline.
   */
  lemma {:induction false} AppendOnlyLines(values: seq<string>)
    requires forall i :: 0 <= i < |values| ==> values[i] != [] && NoNewline(values[i])
    ensures Lines(AppendAll("", values)) == if values == [] then [] else [""] + values
    ensures values != [] ==> AppendAll("", values) != [] && !EndsWithNewline(AppendAll("", values))
    decreases |values|
  {
    if values != [] {
      var init := values[..|values| - 1];
      var before := AppendAll("", init);
      AppendOnlyLines(init);
      AppendOneLine(before, Last(values));
      if init == [] {
        assert before == "";
      } else {
        assert values == init + [Last(values)];
      }
    }
  }

  /**
   * Reads the lines of `content` the way a line reader over a stream does:
   * characters accumulate into the current line, each '\n' completes it, and
   * a non-empty unterminated tail is the last line.
   */
  method ReadLines(content: string) returns (lines: seq<string>)
    ensures lines == Lines(content)
  {
    lines := [];
    var current := "";
    var i := 0;
    while i < |content|
      invariant 0 <= i <= |content|
      invariant Split(content[..i]) == lines + [current]
    {
      assert content[..i + 1][..i] == content[..i];
      if content[i] == '\n' {
        lines := lines + [current];
        current := "";
      } else {
        current := current + [content[i]];
      }
      i := i + 1;
    }
    assert content[..i] == content;
    if current != "" {
      lines := lines + [current];
    }
  }
}
